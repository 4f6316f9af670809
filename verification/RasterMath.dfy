/** Integer helpers of the rasteriser (raster.c) and what they mean for pixel centres. */
module RasterMath {
  import opened Prelude

  /** floor_div8: floor of v/8, computed without shifting negative values. */
  function FloorDiv8(v: int): (q: int)
    ensures 8 * q <= v < 8 * q + 8
  {
    if v >= 0 then v / 8 else -((-v + 7) / 8)
  }

  /** Pixel i has its centre at 8i+4; PxFirst(a) is the first pixel whose centre is at or after a. */
  function PxFirst(a: int): int { FloorDiv8(a + 3) }

  function Centre(i: int): int { 8 * i + 4 }

  lemma PxFirstIsFirst(a: int, i: int)
    ensures PxFirst(a) <= i <==> a <= Centre(i)
  {
  }

  /** ceil16: ceiling of a 16.16 value of either sign. */
  function Ceil16(v: int): (c: int)
    ensures 0x1_0000 * (c - 1) < v <= 0x1_0000 * c
  {
    if v >= 0 then (v + 0xFFFF) / 0x1_0000 else -((-v) / 0x1_0000)
  }

  /** C's division, which truncates toward zero. */
  function TruncDiv(a: int, b: int): int
    requires b > 0
  {
    if a >= 0 then a / b else -((-a) / b)
  }

  function Clamp(v: int, lo: int, hi: int): int { if v < lo then lo else if v > hi then hi else v }

  // ---- isqrt64 ----

  function Sq(x: int): int { x * x }

  function Mul(x: int, y: int): int { x * y }

  function Pow4(k: nat): (p: nat)
    ensures p > 0
  {
    if k == 0 then 1 else 4 * Pow4(k - 1)
  }

  /** The value of `bit` when digit k of the root is next; 0 when all are done. */
  function Bit(k: int): nat
    requires k >= -1
  {
    if k < 0 then 0 else Pow4(k)
  }

  lemma {:induction false} Pow4IsSquare(k: nat)
    ensures Pow4(k) == Sq(Pow2(k))
  {
    if k > 0 {
      Pow4IsSquare(k - 1);
      var p := Pow2(k - 1);
      assert (2 * p) * (2 * p) == 4 * (p * p);
    }
  }

  lemma TopDigit()
    ensures Pow4(31) == 0x4000_0000_0000_0000
  {
    assert Pow4(8) == 0x1_0000;
    assert Pow4(16) == 0x1_0000_0000;
    assert Pow4(24) == 0x1_0000_0000_0000;
  }

  /** Taking a digit of weight b: the residue needed, and the new value of 2*root*weight. */
  lemma Digit(root: nat, b: nat)
    ensures Sq(root + b) == Sq(root) + Mul(root, 2 * b) + Sq(b)
    ensures Mul(root, 2 * b) / 2 == Mul(root, b)
    ensures Mul(root, b) + Sq(b) == Mul(root + b, b)
  {
    assert root * (2 * b) == 2 * (root * b);
    assert (root + b) * b == root * b + b * b;
    assert (root + b) * (root + b) == root * root + root * (2 * b) + b * b;
  }

  lemma DigitAt(k: nat, root: nat)
    ensures Pow2(k + 1) == 2 * Pow2(k) && Pow4(k) == Sq(Pow2(k))
    ensures Sq(root + Pow2(k)) == Sq(root) + Mul(root, Pow2(k + 1)) + Pow4(k)
    ensures Sq(root + Pow2(k + 1)) == Sq(root + Pow2(k) + Pow2(k))
    ensures Mul(root, Pow2(k + 1)) / 2 == Mul(root, Pow2(k))
    ensures Mul(root, Pow2(k)) + Pow4(k) == Mul(root + Pow2(k), Pow2(k))
  {
    hide Sq, Mul;
    Pow4IsSquare(k);
    Digit(root, Pow2(k));
    assert root + 2 * Pow2(k) == root + Pow2(k) + Pow2(k);
  }

  lemma PowZero()
    ensures Pow2(0) == 1
  {
  }

  lemma Units(x: int)
    ensures Mul(x, 1) == x && Mul(0, x) == 0 && Sq(0) == 0
  {
  }

  /** isqrt64: the floor of the square root, binary digit by digit. */
  method Isqrt64(v0: nat) returns (r: nat)
    requires v0 < 0x1_0000_0000_0000_0000
    ensures Sq(r) <= v0 < Sq(r + 1)
  {
    hide Sq, Mul, Pow2;
    var v: int, res: int, bit := v0, 0, 0x4000_0000_0000_0000;
    ghost var k: int, root: nat := 31, 0;
    TopDigit();
    while bit > v
      invariant -1 <= k <= 31 && bit == Bit(k) && v == v0 < Pow4(k + 1)
      decreases bit
    {
      bit := bit / 4;
      k := k - 1;
    }
    PowZero();
    Pow4IsSquare(k + 1);
    Units(Pow2(k + 1));
    while bit != 0
      invariant -1 <= k <= 31 && bit == Bit(k)
      invariant v == v0 - Sq(root) && 0 <= v && v0 < Sq(root + Pow2(k + 1))
      invariant res == Mul(root, Pow2(k + 1))
      decreases bit
    {
      ghost var b := Pow2(k);
      DigitAt(k, root);
      if v >= res + bit {
        v := v - (res + bit);
        res := res / 2 + bit;
        root := root + b;
      } else {
        res := res / 2;
      }
      bit := bit / 4;
      k := k - 1;
    }
    Units(root);
    r := res;
  }

  /** Being at most the floor of a square root is the same as having a square at most the value. */
  lemma RootBound(v: int, h: int, a: int)
    requires h >= 0 && Sq(h) <= v < Sq(h + 1)
    ensures (-h <= a && a <= h) <==> Sq(a) <= v
  {
    if -h <= a && a <= h {
      SqMono(a, h);
    } else {
      SqMono(h + 1, a);
    }
  }

  lemma SqMono(a: int, b: int)
    requires (if a >= 0 then a else -a) <= (if b >= 0 then b else -b)
    ensures Sq(a) <= Sq(b)
  {
    var x, y := if a >= 0 then a else -a, if b >= 0 then b else -b;
    assert x * x <= x * y <= y * y;
  }
}
