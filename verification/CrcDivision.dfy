/** Both CRCs are remainders. A number stands for the polynomial over GF(2) whose coefficients are its
    binary digits; adding is digit by digit without carry. */
module CrcDivision {
  import opened Prelude
  import N = NorFlash
  import F = Frames

  // ---- polynomials ---------------------------------------------------------------------------

  function Plus(a: nat, b: nat): (r: nat)
    decreases a + b
  {
    if a == 0 && b == 0 then 0 else 2 * Plus(a / 2, b / 2) + (a + b) % 2
  }

  function Times(q: nat, p: nat): (r: nat) {
    if q == 0 then 0 else Plus(2 * Times(q / 2, p), if q % 2 == 1 then p else 0)
  }

  /** a times x^n. */
  function Up(n: nat, a: nat): (r: nat) {
    if n == 0 then a else 2 * Up(n - 1, a)
  }

  /** Sums have no carry. */
  lemma {:induction false} PlusAt(a: nat, b: nat, k: nat)
    ensures BitAt(Plus(a, b), k) == (BitAt(a, k) + BitAt(b, k)) % 2
    decreases k
  {
    PlusHalf(a, b);
    if k > 0 { PlusAt(a / 2, b / 2, k - 1); }
  }

  lemma PlusHalf(a: nat, b: nat)
    ensures Plus(a, b) / 2 == Plus(a / 2, b / 2) && Plus(a, b) % 2 == if a % 2 == b % 2 then 0 else 1
  {
    OddOrEven(a, b);
  }

  lemma OddOrEven(a: nat, b: nat)
    ensures (a + b) % 2 == if a % 2 == b % 2 then 0 else 1
  {
  }

  lemma {:induction false} PlusSwap(a: nat, b: nat)
    ensures Plus(a, b) == Plus(b, a)
    decreases a + b
  {
    if a + b > 0 { PlusSwap(a / 2, b / 2); }
  }

  lemma {:induction false} PlusZero(a: nat)
    ensures Plus(a, 0) == a && Plus(0, a) == a && Plus(a, a) == 0
  {
    if a > 0 { PlusZero(a / 2); }
  }

  lemma {:induction false} PlusAssoc(a: nat, b: nat, c: nat)
    ensures Plus(Plus(a, b), c) == Plus(a, Plus(b, c))
    decreases a + b + c
  {
    if a + b + c > 0 {
      PlusAssoc(a / 2, b / 2, c / 2);
      PlusHalf(a, b);
      PlusHalf(b, c);
      PlusHalf(Plus(a, b), c);
      PlusHalf(a, Plus(b, c));
      hide Plus;
      SameHalves(Plus(Plus(a, b), c), Plus(a, Plus(b, c)));
    }
  }

  lemma SameHalves(a: nat, b: nat)
    requires a / 2 == b / 2 && a % 2 == b % 2
    ensures a == b
  {
  }

  lemma PlusDouble(a: nat, b: nat)
    ensures Plus(2 * a, 2 * b) == 2 * Plus(a, b)
  {
    if a + b == 0 { PlusZero(0); }
  }

  /** What both sums have in common cancels. */
  lemma {:induction false} PlusCancel(a: nat, b: nat, h: nat)
    ensures Plus(Plus(a, h), Plus(b, h)) == Plus(a, b)
  {
    PlusAssoc(a, h, Plus(b, h));
    PlusSwap(b, h);
    PlusAssoc(h, h, b);
    PlusZero(h);
    PlusZero(b);
  }

  /** (a + b) + (c + d) in another order. */
  lemma {:induction false} PlusFour(a: nat, b: nat, c: nat, d: nat)
    ensures Plus(Plus(a, b), Plus(c, d)) == Plus(Plus(a, c), Plus(b, d))
  {
    PlusAssoc(a, b, Plus(c, d));
    PlusAssoc(b, c, d);
    PlusSwap(b, c);
    PlusAssoc(c, b, d);
    PlusAssoc(a, c, Plus(b, d));
  }

  /** a without its k lowest digits. */
  function Drop(a: nat, k: nat): (r: nat) {
    if k == 0 then a else Drop(a / 2, k - 1)
  }

  /** Digits above all those of b stay as they are. */
  lemma {:induction false} PlusHigh(a: nat, b: nat, k: nat)
    requires b < Pow2(k)
    ensures Drop(Plus(a, b), k) == Drop(a, k)
    decreases k
  {
    if k == 0 {
      PlusZero(a);
    } else {
      PlusHalf(a, b);
      PlusHigh(a / 2, b / 2, k - 1);
    }
  }

  lemma {:induction false} AtLeast(a: nat, k: nat)
    ensures Drop(a, k) > 0 <==> a >= Pow2(k)
    decreases k
  {
    if k > 0 { AtLeast(a / 2, k - 1); }
  }

  lemma {:induction false} TimesDouble(q: nat, p: nat)
    ensures Times(2 * q, p) == 2 * Times(q, p)
  {
    PlusZero(2 * Times(q, p));
  }

  /** Multiples of p add up to a multiple of p. */
  lemma {:induction false} TimesPlus(q: nat, r: nat, p: nat)
    ensures Plus(Times(q, p), Times(r, p)) == Times(Plus(q, r), p)
    decreases q + r
  {
    hide Plus, Times;
    PlusZero(0);
    TimesStep(0, p);
    if q + r > 0 {
      TimesPlus(q / 2, r / 2, p);
      PlusHalf(q, r);
      TimesStep(q, p);
      TimesStep(r, p);
      TimesStep(Plus(q, r), p);
      PlusFour(2 * Times(q / 2, p), Digit(q, p), 2 * Times(r / 2, p), Digit(r, p));
      PlusDouble(Times(q / 2, p), Times(r / 2, p));
      DigitPlus(q, r, p);
    }
  }

  function Digit(q: nat, p: nat): nat { if q % 2 == 1 then p else 0 }

  lemma DigitPlus(q: nat, r: nat, p: nat)
    ensures Plus(Digit(q, p), Digit(r, p)) == Digit(Plus(q, r), p)
  {
    PlusHalf(q, r);
    hide Plus;
    PlusZero(p);
    PlusZero(0);
  }

  lemma TimesStep(q: nat, p: nat)
    ensures Times(q, p) == Plus(2 * Times(q / 2, p), Digit(q, p))
    ensures Times(0, p) == 0
  {
    if q == 0 { PlusZero(0); }
  }

  /** A multiple of p other than 0 has at least p's degree. */
  lemma {:induction false} TimesDegree(q: nat, p: nat, k: nat)
    requires q > 0 && Pow2(k) <= p < 2 * Pow2(k)
    ensures Times(q, p) >= Pow2(k)
  {
    if q == 1 {
      PlusZero(p);
    } else {
      TimesDegree(q / 2, p, k);
      TimesStep(q, p);
      hide Plus, Times;
      var t := Times(q / 2, p);
      PlusHigh(2 * t, Digit(q, p), k + 1);
      AtLeast(2 * t, k + 1);
      AtLeast(Times(q, p), k + 1);
    }
  }

  // ---- congruence ----------------------------------------------------------------------------

  /** a and b leave the same remainder on division by p. */
  ghost predicate Congruent(a: nat, b: nat, p: nat) {
    exists q: nat :: Plus(a, b) == Times(q, p)
  }

  lemma {:induction false} CongruentSame(a: nat, p: nat)
    ensures Congruent(a, a, p)
  {
    PlusZero(a);
    assert Times(0, p) == 0;
  }

  lemma {:induction false} CongruentSwap(a: nat, b: nat, p: nat)
    requires Congruent(a, b, p)
    ensures Congruent(b, a, p)
  {
    PlusSwap(a, b);
  }

  lemma {:induction false} CongruentJoin(a: nat, b: nat, c: nat, p: nat)
    requires Congruent(a, b, p) && Congruent(b, c, p)
    ensures Congruent(a, c, p)
  {
    var q: nat :| Plus(a, b) == Times(q, p);
    var r: nat :| Plus(b, c) == Times(r, p);
    PlusSwap(b, c);
    PlusCancel(a, c, b);
    TimesPlus(q, r, p);
  }

  lemma {:induction false} CongruentDouble(a: nat, b: nat, p: nat)
    requires Congruent(a, b, p)
    ensures Congruent(2 * a, 2 * b, p)
  {
    var q: nat :| Plus(a, b) == Times(q, p);
    PlusDouble(a, b);
    TimesDouble(q, p);
  }

  lemma {:induction false} CongruentPlus(a: nat, b: nat, h: nat, p: nat)
    requires Congruent(a, b, p)
    ensures Congruent(Plus(a, h), Plus(b, h), p)
  {
    PlusCancel(a, b, h);
  }

  lemma {:induction false} CongruentShift(a: nat, b: nat, n: nat, p: nat)
    requires Congruent(a, b, p)
    ensures Congruent(Up(n, a), Up(n, b), p)
  {
    if n > 0 {
      CongruentShift(a, b, n - 1, p);
      CongruentDouble(Up(n - 1, a), Up(n - 1, b), p);
    }
  }

  /** Below p's degree nothing else leaves the same remainder. */
  lemma {:induction false} RemainderUnique(a: nat, b: nat, p: nat, k: nat)
    requires a < Pow2(k) && b < Pow2(k) && Pow2(k) <= p < 2 * Pow2(k) && Congruent(a, b, p)
    ensures a == b
  {
    var q: nat :| Plus(a, b) == Times(q, p);
    PlusHigh(a, b, k);
    AtLeast(a, k);
    AtLeast(Plus(a, b), k);
    if q > 0 { TimesDegree(q, p, k); }
    Apart(a, b);
  }

  lemma {:induction false} Apart(a: nat, b: nat)
    ensures Plus(a, b) == 0 ==> a == b
    decreases a + b
  {
    if a + b > 0 {
      PlusHalf(a, b);
      Apart(a / 2, b / 2);
    }
  }

  // ---- texts as polynomials ------------------------------------------------------------------

  /** The bytes of a text as the coefficients of one polynomial, the first byte highest. */
  function Value(data: seq<Byte>): (v: nat) {
    if data == [] then 0 else 256 * Value(data[..|data| - 1]) + data[|data| - 1]
  }

  /** What a CRC of degree k divides: the text times x^k, and the register's start value in front of it. */
  function Dividend(c: nat, data: seq<Byte>, k: nat): (m: nat) {
    Plus(Up(8 * |data|, c), Up(k, Value(data)))
  }

  /** A digit on top of a lower number is added without a carry. */
  lemma {:induction false} PlusBelow(a: nat, b: nat, n: nat)
    requires b < Pow2(n)
    ensures Plus(Up(n, a), b) == Up(n, a) + b
    decreases n
  {
    if n == 0 {
      assert b == 0;
      PlusZero(a);
    } else {
      PlusHalf(Up(n, a), b);
      PlusBelow(a, b / 2, n - 1);
      hide Plus, Pow2;
      FromHalves(Plus(Up(n, a), b), Up(n - 1, a), b);
    }
  }

  lemma FromHalves(r: nat, h: nat, b: nat)
    requires r / 2 == h + b / 2 && r % 2 == if 0 == b % 2 then 0 else 1
    ensures r == 2 * h + b
  {
  }

  lemma {:induction false} PlusUp(a: nat, b: nat, n: nat)
    ensures Plus(Up(n, a), Up(n, b)) == Up(n, Plus(a, b))
  {
    if n > 0 {
      PlusUp(a, b, n - 1);
      PlusDouble(Up(n - 1, a), Up(n - 1, b));
    }
  }

  lemma {:induction false} UpJoin(m: nat, n: nat, a: nat)
    ensures Up(m + n, a) == Up(m, Up(n, a))
  {
    if m > 0 { UpJoin(m - 1, n, a); }
  }

  lemma {:induction false} UpOne(n: nat)
    ensures Up(n, 1) == Pow2(n)
  {
    if n > 0 { UpOne(n - 1); }
  }

  lemma Up8(a: nat)
    ensures Up(8, a) == 256 * a
  {
    assert Up(1, a) == 2 * a;
    assert Up(2, a) == 4 * a;
    assert Up(3, a) == 8 * a;
    assert Up(4, a) == 16 * a;
    assert Up(5, a) == 32 * a;
    assert Up(6, a) == 64 * a;
    assert Up(7, a) == 128 * a;
  }

  lemma Pow2At()
    ensures Pow2(8) == 0x100 && Pow2(16) == 0x1_0000 && Pow2(24) == 0x100_0000 && Pow2(32) == 0x1_0000_0000
  {
    F.Pow16();
    N.Pow32();
    assert Pow2(8) == 0x100;
    assert Pow2(24) == 0x100_0000;
  }

  lemma {:induction false} ValueStep(data: seq<Byte>, b: Byte)
    ensures Value(data + [b]) == Plus(Up(8, Value(data)), b)
  {
    assert (data + [b])[..|data|] == data;
    Pow2At();
    Up8(Value(data));
    PlusBelow(Value(data), b, 8);
  }

  /** One byte more: everything before moves up by eight places. */
  lemma {:induction false} DividendStep(c: nat, data: seq<Byte>, b: Byte, k: nat)
    ensures Dividend(c, data + [b], k) == Plus(Up(8, Dividend(c, data, k)), Up(k, b))
  {
    var v, n := Value(data), 8 * |data|;
    ValueStep(data, b);
    assert 8 * |data + [b]| == 8 + n;
    hide Plus, Up, Value;
    PlusUp(Up(8, v), b, k);
    UpJoin(8, n, c);
    PlusUp(Up(n, c), Up(k, v), 8);
    UpJoin(8, k, v);
    UpJoin(k, 8, v);
    PlusAssoc(Up(8, Up(n, c)), Up(k, Up(8, v)), Up(k, b));
  }

  // ---- what a remainder catches --------------------------------------------------------------

  lemma {:induction false} TimesEven(q: nat, p: nat, y: nat)
    requires p % 2 == 1 && Times(q, p) == 2 * y
    ensures Times(q / 2, p) == y
  {
    TimesStep(q, p);
    PlusHalf(2 * Times(q / 2, p), Digit(q, p));
    hide Plus, Times;
    PlusZero(2 * Times(q / 2, p));
  }

  /** p is odd and of degree k: no multiple of p has all its digits within k places of each other. */
  lemma {:induction false} NoShortMultiple(q: nat, p: nat, e: nat, n: nat, k: nat)
    requires p % 2 == 1 && Pow2(k) <= p < 2 * Pow2(k) && 0 < e < Pow2(k)
    ensures Times(q, p) != Up(n, e)
    decreases n
  {
    if n > 0 {
      if Times(q, p) == Up(n, e) { TimesEven(q, p, Up(n - 1, e)); }
      NoShortMultiple(q / 2, p, e, n - 1, k);
    } else if q > 0 {
      TimesDegree(q, p, k);
    }
  }

  lemma {:induction false} ValueJoin(a: seq<Byte>, b: seq<Byte>)
    ensures Value(a + b) == Plus(Up(8 * |b|, Value(a)), Value(b))
  {
    if b == [] {
      assert a + b == a;
      PlusZero(Value(a));
    } else {
      hide Plus, Up, Value;
      var n := |b| - 1;
      ValueJoin(a, b[..n]);
      assert a + b == (a + b[..n]) + [b[n]];
      assert b == b[..n] + [b[n]];
      ValueStep(a + b[..n], b[n]);
      ValueStep(b[..n], b[n]);
      assert 8 * |b| == 8 + 8 * n;
      PlusUp(Up(8 * n, Value(a)), Value(b[..n]), 8);
      UpJoin(8, 8 * n, Value(a));
      PlusAssoc(Up(8, Up(8 * n, Value(a))), Up(8, Value(b[..n])), b[n]);
    }
  }

  lemma {:induction false} ValueFits(data: seq<Byte>)
    ensures Value(data) < Pow2(8 * |data|)
  {
    if data != [] {
      ValueFits(data[..|data| - 1]);
      var n := 8 * |data| - 8;
      assert Pow2(n + 2) == 4 * Pow2(n);
      assert Pow2(n + 4) == 16 * Pow2(n);
      assert Pow2(n + 6) == 64 * Pow2(n);
    }
  }

  lemma {:induction false} ValueDiffers(a: seq<Byte>, b: seq<Byte>)
    requires |a| == |b| && a != b
    ensures Value(a) != Value(b)
  {
    var n := |a| - 1;
    if a[..n] != b[..n] {
      ValueDiffers(a[..n], b[..n]);
    } else {
      assert a == a[..n] + [a[n]] && b == b[..n] + [b[n]];
    }
  }

  /** Texts that differ only between `pre` and `post` differ by a polynomial no longer than that. */
  lemma {:induction false} DifferenceIs(c: nat, pre: seq<Byte>, a: seq<Byte>, b: seq<Byte>, post: seq<Byte>, k: nat)
    requires |a| == |b|
    ensures Plus(Dividend(c, pre + a + post, k), Dividend(c, pre + b + post, k))
            == Up(k + 8 * |post|, Plus(Value(a), Value(b)))
  {
    var (x, y) := (pre + a + post, pre + b + post);
    ValueJoin(pre + a, post);
    ValueJoin(pre + b, post);
    ValueJoin(pre, a);
    ValueJoin(pre, b);
    assert |x| == |y|;
    hide Plus, Up, Value;
    Cancel(Up(8 * |x|, c), Up(k, Value(x)), Up(k, Value(y)));
    PlusUp(Value(x), Value(y), k);
    PlusCancel(Up(8 * |post|, Value(pre + a)), Up(8 * |post|, Value(pre + b)), Value(post));
    PlusUp(Value(pre + a), Value(pre + b), 8 * |post|);
    Cancel(Up(8 * |a|, Value(pre)), Value(a), Value(b));
    UpJoin(k, 8 * |post|, Plus(Value(a), Value(b)));
  }

  lemma Cancel(h: nat, a: nat, b: nat)
    ensures Plus(Plus(h, a), Plus(h, b)) == Plus(a, b)
  {
    PlusSwap(h, a);
    PlusSwap(h, b);
    PlusCancel(a, b, h);
  }

  lemma {:induction false} PlusFits(a: nat, b: nat, k: nat)
    requires a < Pow2(k) && b < Pow2(k)
    ensures Plus(a, b) < Pow2(k)
  {
    PlusHigh(a, b, k);
    AtLeast(a, k);
    AtLeast(Plus(a, b), k);
  }

  /** No change confined to at most k / 8 bytes in a row keeps the remainder. */
  lemma {:induction false} BurstChanges(c: nat, pre: seq<Byte>, a: seq<Byte>, b: seq<Byte>, post: seq<Byte>, p: nat, k: nat)
    requires p % 2 == 1 && Pow2(k) <= p < 2 * Pow2(k) && |a| == |b| && 8 * |a| == k && a != b
    ensures !Congruent(Dividend(c, pre + a + post, k), Dividend(c, pre + b + post, k), p)
  {
    DifferenceIs(c, pre, a, b, post, k);
    ValueFits(a);
    ValueFits(b);
    ValueDiffers(a, b);
    PlusFits(Value(a), Value(b), k);
    Apart(Value(a), Value(b));
    hide Plus, Value, Dividend, Up;
    forall q: nat ensures Times(q, p) != Up(k + 8 * |post|, Plus(Value(a), Value(b))) {
      NoShortMultiple(q, p, Plus(Value(a), Value(b)), k + 8 * |post|, k);
    }
  }

  // ---- CRC-16 --------------------------------------------------------------------------------

  /** x^16 + x^12 + x^5 + 1 */
  const CCITT := 0x1_1021

  lemma {:induction false} XorIsPlus(a: nat, b: nat, n: nat)
    requires a < Pow2(n) && b < Pow2(n)
    ensures N.Xor(a, b, n) == Plus(a, b)
    decreases n
  {
    if n > 0 {
      XorIsPlus(a / 2, b / 2, n - 1);
      PlusHalf(a, b);
      hide Plus;
      SameHalves(N.Xor(a, b, n), Plus(a, b));
    }
  }

  lemma OneTime(p: nat)
    ensures Times(1, p) == p
  {
    assert Times(0, p) == 0;
    PlusZero(p);
  }

  /** Taking p away once leaves the remainder as it is; p is x^k and `low`. */
  lemma {:induction false} Reduce(u: nat, low: nat, k: nat, p: nat)
    requires u < Pow2(k) && low < Pow2(k) && p == Pow2(k) + low
    ensures Congruent(Plus(u, low), Pow2(k) + u, p)
  {
    PlusBelow(1, u, k);
    PlusBelow(1, low, k);
    UpOne(k);
    hide Plus, Pow2, Up;
    PlusSwap(u, low);
    PlusCancel(low, Pow2(k), u);
    PlusSwap(low, Pow2(k));
    OneTime(p);
  }

  lemma {:induction false} CrcBitDoubles(c: F.Half)
    ensures Congruent(F.CrcBit(c), 2 * c, CCITT)
  {
    F.Pow16();
    hide Plus, Pow2, N.Xor, Congruent;
    if c >= 0x8000 {
      var u: nat := 2 * c - 0x1_0000;
      assert c * 2 % 0x1_0000 == u;
      XorIsPlus(u, 0x1021, 16);
      Reduce(u, 0x1021, 16, CCITT);
    } else {
      CongruentSame(2 * c, CCITT);
    }
  }

  lemma {:induction false} CrcBitsShift(c: F.Half, n: nat)
    ensures Congruent(F.CrcBits(c, n), Up(n, c), CCITT)
  {
    hide Congruent, F.CrcBit, Plus, Times;
    if n == 0 {
      CongruentSame(c, CCITT);
    } else {
      var d := F.CrcBits(c, n - 1);
      CrcBitsShift(c, n - 1);
      CrcBitDoubles(d);
      CongruentDouble(d, Up(n - 1, c), CCITT);
      CongruentJoin(F.CrcBit(d), 2 * (d as nat), Up(n, c), CCITT);
    }
  }

  /** One byte on top of a register that is congruent to d. */
  lemma {:induction false} CrcByte(r: F.Half, b: Byte, d: nat)
    requires Congruent(r, d, CCITT)
    ensures Congruent(F.CrcBits(F.XorHalf(r, F.High(b)), 8), Plus(Up(8, d), Up(16, b)), CCITT)
  {
    Pow2At();
    XorIsPlus(r, F.High(b), 16);
    CrcBitsShift(F.XorHalf(r, F.High(b)), 8);
    Up8(b);
    UpJoin(8, 8, b);
    hide Plus, Up, Congruent, F.CrcBits;
    CongruentPlus(r, d, F.High(b), CCITT);
    CongruentShift(Plus(r, F.High(b)), Plus(d, F.High(b)), 8, CCITT);
    PlusUp(d, F.High(b), 8);
    CongruentJoin(F.CrcBits(F.XorHalf(r, F.High(b)), 8), Up(8, Plus(r, F.High(b))), Up(8, Plus(d, F.High(b))), CCITT);
  }

  lemma {:induction false} CrcDivides(c: F.Half, data: seq<Byte>)
    ensures Congruent(F.Crc(c, data), Dividend(c, data, 16), CCITT)
  {
    if data == [] {
      NoText(c, 16);
      CongruentSame(c, CCITT);
    } else {
      var n := |data| - 1;
      assert data == data[..n] + [data[n]];
      CrcDivides(c, data[..n]);
      hide Congruent, Dividend, F.CrcBits, F.XorHalf;
      CrcByte(F.Crc(c, data[..n]), data[n], Dividend(c, data[..n], 16));
      DividendStep(c, data[..n], data[n], 16);
    }
  }

  lemma NoText(c: nat, k: nat)
    ensures Dividend(c, [], k) == c
  {
    UpNone(k);
    PlusZero(c);
  }

  lemma {:induction false} UpNone(k: nat)
    ensures Up(k, 0) == 0
  {
    if k > 0 { UpNone(k - 1); }
  }

  /** The modem link's CRC is the remainder of the text by x^16 + x^12 + x^5 + 1, and nothing else is. */
  lemma {:induction false} FrameCrcDivides(c: F.Half, data: seq<Byte>, r: F.Half)
    ensures r == F.Crc(c, data) <==> Congruent(r, Dividend(c, data, 16), CCITT)
  {
    CrcDivides(c, data);
    Pow2At();
    hide Plus, Congruent, Dividend, F.Crc, Pow2;
    if Congruent(r, Dividend(c, data, 16), CCITT) {
      CongruentSwap(F.Crc(c, data), Dividend(c, data, 16), CCITT);
      CongruentJoin(r, Dividend(c, data, 16), F.Crc(c, data), CCITT);
      RemainderUnique(r, F.Crc(c, data), CCITT, 16);
    }
  }

  /** A frame on the wire: A5 5A, type, flags, the payload's length and the payload, and the remainder of
      all that from the type on; both numbers low byte first. */
  lemma {:induction false} FrameOnWire(m: F.Msg, flags: Byte)
    requires |m.payload| <= F.MAX_PAYLOAD
    ensures var (b, n) := (F.Frame(m, flags), |m.payload|);
            && |b| == n + 8 && b[0] == 0xA5 && b[1] == 0x5A && b[2] == m.kind && b[3] == flags
            && b[4] + 256 * (b[5] as nat) == n && b[6..n + 6] == m.payload
            && Congruent(b[n + 6] + 256 * (b[n + 7] as nat), Dividend(0xFFFF, b[2..n + 6], 16), CCITT)
  {
    hide Congruent, Dividend, F.Crc;
    var (b, n) := (F.Frame(m, flags), |m.payload|);
    var head := F.HeadOf(m.kind, flags, n);
    var crc := F.FrameCrc(head, m.payload);
    BothHalves(n);
    BothHalves(crc);
    assert b[2..n + 6] == head + m.payload;
    FrameCrcDivides(0xFFFF, head + m.payload, crc);
  }

  lemma BothHalves(h: F.Half)
    ensures F.Low8(h) + 256 * (F.High8(h) as nat) == h
  {
  }

  /** Two bytes in a row garbled anywhere in a frame never leave its CRC right. */
  lemma {:induction false} FrameBurstCaught(c: F.Half, pre: seq<Byte>, a: seq<Byte>, b: seq<Byte>, post: seq<Byte>)
    requires |a| == |b| == 2 && a != b
    ensures F.Crc(c, pre + a + post) != F.Crc(c, pre + b + post)
  {
    Pow2At();
    hide Pow2;
    var (x, y) := (pre + a + post, pre + b + post);
    BurstChanges(c, pre, a, b, post, CCITT, 16);
    CrcDivides(c, x);
    CrcDivides(c, y);
    hide Congruent, Dividend, F.Crc;
    if F.Crc(c, x) == F.Crc(c, y) {
      CongruentSwap(F.Crc(c, x), Dividend(c, x, 16), CCITT);
      CongruentJoin(Dividend(c, x, 16), F.Crc(c, x), Dividend(c, y, 16), CCITT);
    }
  }

  // ---- CRC-32 --------------------------------------------------------------------------------

  /** x^32 + x^26 + x^23 + x^22 + x^16 + x^12 + x^11 + x^10 + x^8 + x^7 + x^5 + x^4 + x^2 + x + 1 */
  const IEEE := 0x1_04C1_1DB7

  /** The n digits of c in the opposite order. */
  function Mirror(c: nat, n: nat): (m: nat)
    ensures m < Pow2(n)
  {
    if n == 0 then 0
    else
      UpOne(n - 1);
      UpNone(n - 1);
      Up(n - 1, c % 2) + Mirror(c / 2, n - 1)
  }

  /** Each byte of a text with its lowest bit first. */
  function Mirrored(data: seq<Byte>): (r: seq<Byte>)
    ensures |r| == |data|
  {
    Pow2At();
    seq<Byte>(|data|, i requires 0 <= i < |data| => Mirror(data[i], 8))
  }

  lemma {:induction false} MirrorSpare(c: nat, n: nat)
    requires n > 0 && c < Pow2(n - 1)
    ensures Mirror(c, n) == 2 * Mirror(c, n - 1)
  {
    if n > 1 { MirrorSpare(c / 2, n - 1); } else { UpNone(0); }
  }

  lemma {:induction false} MirrorUp(c: nat, n: nat, m: nat)
    requires c < Pow2(n)
    ensures Mirror(c, n + m) == Up(m, Mirror(c, n))
  {
    if m > 0 {
      Pow2Grows(n, m - 1);
      MirrorSpare(c, n + m);
      hide Mirror, Pow2;
      MirrorUp(c, n, m - 1);
    }
  }

  lemma {:induction false} Pow2Grows(n: nat, m: nat)
    ensures Pow2(n) <= Pow2(n + m)
  {
    if m > 0 { Pow2Grows(n, m - 1); }
  }

  lemma {:induction false} MirrorPlus(a: nat, b: nat, n: nat)
    ensures Mirror(Plus(a, b), n) == Plus(Mirror(a, n), Mirror(b, n))
    decreases n
  {
    if n == 0 {
      PlusZero(0);
    } else {
      MirrorPlus(a / 2, b / 2, n - 1);
      PlusHalf(a, b);
      MirrorStep(a, n);
      MirrorStep(b, n);
      MirrorStep(Plus(a, b), n);
      hide Plus, Mirror, Up;
      PlusFour(Up(n - 1, a % 2), Mirror(a / 2, n - 1), Up(n - 1, b % 2), Mirror(b / 2, n - 1));
      PlusUp(a % 2, b % 2, n - 1);
      PlusBits(a % 2, b % 2);
    }
  }

  lemma PlusBits(x: nat, y: nat)
    requires x < 2 && y < 2
    ensures Plus(x, y) == if x == y then 0 else 1
  {
    PlusHalf(x, y);
    PlusZero(0);
  }

  lemma MirrorStep(a: nat, n: nat)
    requires n > 0
    ensures Mirror(a, n) == Plus(Up(n - 1, a % 2), Mirror(a / 2, n - 1))
  {
    PlusBelow(a % 2, Mirror(a / 2, n - 1), n - 1);
  }

  lemma {:induction false} MirrorOne(a: nat, b: nat, n: nat)
    requires a < Pow2(n) && b < Pow2(n) && Mirror(a, n) == Mirror(b, n)
    ensures a == b
    decreases n
  {
    if n > 0 {
      UpOne(n - 1);
      UpNone(n - 1);
      MirrorOne(a / 2, b / 2, n - 1);
    }
  }

  lemma {:induction false} MirrorOfUp(h: nat, m: nat, n: nat)
    ensures Mirror(Up(m, h), m + n) == Mirror(h, n)
  {
    if m > 0 {
      UpNone(m + n - 1);
      MirrorOfUp(h, m - 1, n);
    }
  }

  /** h above the m digits of x. */
  lemma {:induction false} MirrorJoin(h: nat, x: nat, m: nat, n: nat)
    requires x < Pow2(m)
    ensures Mirror(Up(m, h) + x, m + n) == Plus(Mirror(h, n), Up(n, Mirror(x, m)))
  {
    PlusBelow(h, x, m);
    MirrorPlus(Up(m, h), x, m + n);
    MirrorOfUp(h, m, n);
    MirrorUp(x, m, n);
  }

  lemma MirrorByte(h: nat, x: nat)
    requires h < 16 && x < 16
    ensures Mirror(16 * h + x, 8) == 16 * Mirror(x, 4) + Mirror(h, 4)
  {
    Up4(h);
    Up4(Mirror(x, 4));
    hide Mirror, Up, Pow2, Plus;
    MirrorJoin(h, x, 4, 4);
    PlusBelow(Mirror(x, 4), Mirror(h, 4), 4);
    PlusSwap(Mirror(h, 4), Up(4, Mirror(x, 4)));
  }

  lemma Up4(a: nat)
    ensures Up(4, a) == 16 * a && Pow2(4) == 16
  {
    assert Up(1, a) == 2 * a;
    assert Up(2, a) == 4 * a;
    assert Up(3, a) == 8 * a;
  }

  lemma MirrorTwo(h: Byte, x: Byte)
    ensures Mirror(256 * (h as nat) + x, 16) == 256 * Mirror(x, 8) + Mirror(h, 8)
  {
    Pow2At();
    Up8(h);
    Up8(Mirror(x, 8));
    hide Mirror, Up, Pow2, Plus;
    MirrorJoin(h, x, 8, 8);
    PlusBelow(Mirror(x, 8), Mirror(h, 8), 8);
    PlusSwap(Mirror(h, 8), Up(8, Mirror(x, 8)));
  }

  lemma MirrorFour(h: F.Half, x: F.Half)
    ensures Mirror(0x1_0000 * (h as nat) + x, 32) == 0x1_0000 * Mirror(x, 16) + Mirror(h, 16)
  {
    Pow2At();
    Up16(h);
    Up16(Mirror(x, 16));
    hide Mirror, Up, Pow2, Plus;
    MirrorJoin(h, x, 16, 16);
    PlusBelow(Mirror(x, 16), Mirror(h, 16), 16);
    PlusSwap(Mirror(h, 16), Up(16, Mirror(x, 16)));
  }

  lemma Up16(a: nat)
    ensures Up(16, a) == 0x1_0000 * a
  {
    Up8(a);
    Up8(Up(8, a));
    UpJoin(8, 8, a);
  }

  lemma MirrorNibbles()
    ensures Mirror(0xE, 4) == 7 && Mirror(0xD, 4) == 0xB && Mirror(0xB, 4) == 0xD && Mirror(8, 4) == 1
    ensures Mirror(3, 4) == 0xC && Mirror(2, 4) == 4 && Mirror(0, 4) == 0
  {
    assert Up(3, 1) == 8 && Up(2, 1) == 4 && Up(1, 1) == 2;
  }

  lemma MirrorIeee()
    ensures Mirror(0xEDB8_8320, 32) == 0x04C1_1DB7
  {
    hide Mirror, Up, Pow2, Plus;
    MirrorNibbles();
    MirrorByte(0xE, 0xD);
    MirrorByte(0xB, 8);
    MirrorByte(8, 3);
    MirrorByte(2, 0);
    MirrorTwo(0xED, 0xB8);
    MirrorTwo(0x83, 0x20);
    MirrorFour(0xEDB8, 0x8320);
  }

  lemma {:induction false} WordBitDoubles(c: Word)
    ensures Congruent(Mirror(N.CrcBit(c), 32), 2 * Mirror(c, 32), IEEE)
  {
    hide Mirror, Plus, N.CrcBit, Congruent, Pow2, Up, Times;
    N.Pow32();
    Doubled(c, 32);
    WordBitIs(c);
    var u := Mirror(c / 2, 32);
    if c % 2 == 1 {
      MirrorPlus(c / 2, 0xEDB8_8320, 32);
      MirrorIeee();
      Reduce(u, 0x04C1_1DB7, 32, IEEE);
    } else {
      CongruentSame(u, IEEE);
    }
  }

  lemma WordBitIs(c: Word)
    ensures (N.CrcBit(c) as nat) == if c % 2 == 1 then Plus(c / 2, 0xEDB8_8320) else c / 2
  {
    N.Pow32();
    hide Plus, Pow2, N.Xor;
    XorIsPlus(c / 2, 0xEDB8_8320, 32);
  }

  lemma Doubled(c: nat, n: nat)
    requires n > 0 && c < Pow2(n)
    ensures 2 * Mirror(c, n) == Mirror(c / 2, n) + if c % 2 == 1 then Pow2(n) else 0
  {
    MirrorIs(c, n);
    assert Pow2(n) == 2 * Pow2(n - 1);
    hide Mirror, Pow2;
    MirrorSpare(c / 2, n);
  }

  lemma MirrorIs(c: nat, n: nat)
    requires n > 0
    ensures Mirror(c, n) == Mirror(c / 2, n - 1) + if c % 2 == 1 then Pow2(n - 1) else 0
  {
    UpOne(n - 1);
    UpNone(n - 1);
  }

  lemma {:induction false} WordBitsShift(c: Word, n: nat)
    ensures Congruent(Mirror(N.CrcBits(c, n), 32), Up(n, Mirror(c, 32)), IEEE)
  {
    hide Congruent, N.CrcBit, Plus, Times, Mirror;
    if n == 0 {
      CongruentSame(Mirror(c, 32), IEEE);
    } else {
      var d := N.CrcBits(c, n - 1);
      WordBitsShift(c, n - 1);
      WordBitDoubles(d);
      CongruentDouble(Mirror(d, 32), Up(n - 1, Mirror(c, 32)), IEEE);
      CongruentJoin(Mirror(N.CrcBit(d), 32), 2 * Mirror(d, 32), Up(n, Mirror(c, 32)), IEEE);
    }
  }

  lemma {:induction false} WordByte(r: Word, b: Byte, d: nat)
    requires Congruent(Mirror(r, 32), d, IEEE)
    ensures Congruent(Mirror(N.CrcBits(N.XorWord(r, b), 8), 32), Plus(Up(8, d), Up(32, Mirror(b, 8))), IEEE)
  {
    Pow2At();
    XorIsPlus(r, b, 32);
    WordBitsShift(N.XorWord(r, b), 8);
    MirrorPlus(r, b, 32);
    MirrorUp(b, 8, 24);
    UpJoin(8, 24, Mirror(b, 8));
    hide Plus, Up, Congruent, N.CrcBits, Mirror;
    var (m, h) := (Mirror(r, 32), Up(24, Mirror(b, 8)));
    CongruentPlus(m, d, h, IEEE);
    CongruentShift(Plus(m, h), Plus(d, h), 8, IEEE);
    PlusUp(d, h, 8);
    CongruentJoin(Mirror(N.CrcBits(N.XorWord(r, b), 8), 32), Up(8, Plus(m, h)), Up(8, Plus(d, h)), IEEE);
  }

  lemma {:induction false} RawDivides(c: Word, data: seq<Byte>)
    ensures Congruent(Mirror(N.CrcRaw(c, data), 32), Dividend(Mirror(c, 32), Mirrored(data), 32), IEEE)
  {
    hide Congruent, Dividend, N.CrcBits, N.XorWord, Mirror;
    if data == [] {
      assert Mirrored(data) == [];
      NoText(Mirror(c, 32), 32);
      CongruentSame(Mirror(c, 32), IEEE);
    } else {
      var n := |data| - 1;
      assert Mirrored(data) == Mirrored(data[..n]) + [Mirrored(data)[n]];
      RawDivides(c, data[..n]);
      WordByte(N.CrcRaw(c, data[..n]), data[n], Dividend(Mirror(c, 32), Mirrored(data[..n]), 32));
      DividendStep(Mirror(c, 32), Mirrored(data[..n]), Mirrored(data)[n], 32);
    }
  }

  /** The geometry store's CRC, its digits in the opposite order and inverted, is the remainder of the
      text, lowest bits first, by IEEE 802.3's polynomial, and nothing else is. */
  lemma {:induction false} DataCrcDivides(c: Word, data: seq<Byte>, r: Word)
    ensures r == N.Crc(c, data) <==>
            Congruent(Mirror(N.Not(r), 32), Dividend(Mirror(N.Not(c), 32), Mirrored(data), 32), IEEE)
  {
    RawDivides(N.Not(c), data);
    Pow2At();
    var (raw, d) := (N.CrcRaw(N.Not(c), data), Dividend(Mirror(N.Not(c), 32), Mirrored(data), 32));
    hide Plus, Congruent, Dividend, N.CrcRaw, Pow2, Mirror;
    if Congruent(Mirror(N.Not(r), 32), d, IEEE) {
      CongruentSwap(Mirror(raw, 32), d, IEEE);
      CongruentJoin(Mirror(N.Not(r), 32), d, Mirror(raw, 32), IEEE);
      RemainderUnique(Mirror(N.Not(r), 32), Mirror(raw, 32), IEEE, 32);
      MirrorOne(N.Not(r), raw, 32);
    }
  }

  lemma {:induction false} MirroredDiffers(a: seq<Byte>, b: seq<Byte>)
    requires |a| == |b| && a != b
    ensures Mirrored(a) != Mirrored(b)
  {
    Pow2At();
    var i :| 0 <= i < |a| && a[i] != b[i];
    hide Mirror;
    if Mirrored(a)[i] == Mirrored(b)[i] { MirrorOne(a[i], b[i], 8); }
  }

  /** Four bytes in a row changed anywhere in a set's data never leave its CRC right. */
  lemma {:induction false} DataBurstCaught(c: Word, pre: seq<Byte>, a: seq<Byte>, b: seq<Byte>, post: seq<Byte>)
    requires |a| == |b| == 4 && a != b
    ensures N.Crc(c, pre + a + post) != N.Crc(c, pre + b + post)
  {
    Pow2At();
    hide Pow2, Mirror;
    var (x, y, m) := (pre + a + post, pre + b + post, Mirror(N.Not(c), 32));
    assert Mirrored(x) == Mirrored(pre) + Mirrored(a) + Mirrored(post);
    assert Mirrored(y) == Mirrored(pre) + Mirrored(b) + Mirrored(post);
    MirroredDiffers(a, b);
    BurstChanges(m, Mirrored(pre), Mirrored(a), Mirrored(b), Mirrored(post), IEEE, 32);
    RawDivides(N.Not(c), x);
    RawDivides(N.Not(c), y);
    hide Congruent, Dividend, N.CrcRaw, Mirrored;
    var (u, v) := (N.CrcRaw(N.Not(c), x), N.CrcRaw(N.Not(c), y));
    if u == v {
      CongruentSwap(Mirror(u, 32), Dividend(m, Mirrored(x), 32), IEEE);
      CongruentJoin(Dividend(m, Mirrored(x), 32), Mirror(u, 32), Dividend(m, Mirrored(y), 32), IEEE);
    }
  }
}
