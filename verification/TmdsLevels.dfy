/** The balanced levels of the TMDS encoder: the table the palette's components are drawn from in the
    word-run build, and the nearest-level table. */
module TmdsLevels {
  import opened Prelude
  import opened Tmds

  /** tmds_balanced_levels: one of its 52 entries. */
  predicate IsLevel(v: Byte) {
    v == 16 || v == 17 || v == 34 || v == 35 || v == 38 || v == 39 || v == 44 || v == 45 || v == 54 ||
    v == 55 || v == 56 || v == 57 || v == 68 || v == 69 || v == 74 || v == 75 || v == 84 || v == 85 ||
    v == 90 || v == 91 || v == 104 || v == 105 || v == 108 || v == 109 || v == 118 || v == 119 || v == 136 ||
    v == 137 || v == 146 || v == 147 || v == 150 || v == 151 || v == 164 || v == 165 || v == 170 || v == 171 ||
    v == 180 || v == 181 || v == 186 || v == 187 || v == 198 || v == 199 || v == 200 || v == 201 || v == 210 ||
    v == 211 || v == 216 || v == 217 || v == 220 || v == 221 || v == 238 || v == 239
  }

  /** nearest_lut, each stretch of equal entries as one case. */
  function Nearest(v: Byte): Byte {
    if v < 17 then 16 else if v < 26 then 17 else if v < 35 then 34 else if v < 37 then 35 else
    if v < 39 then 38 else if v < 42 then 39 else if v < 45 then 44 else if v < 50 then 45 else
    if v < 55 then 54 else if v < 56 then 55 else if v < 57 then 56 else if v < 63 then 57 else
    if v < 69 then 68 else if v < 72 then 69 else if v < 75 then 74 else if v < 80 then 75 else
    if v < 85 then 84 else if v < 88 then 85 else if v < 91 then 90 else if v < 98 then 91 else
    if v < 105 then 104 else if v < 107 then 105 else if v < 109 then 108 else if v < 114 then 109 else
    if v < 119 then 118 else if v < 128 then 119 else if v < 137 then 136 else if v < 142 then 137 else
    if v < 147 then 146 else if v < 149 then 147 else if v < 151 then 150 else if v < 158 then 151 else
    if v < 165 then 164 else if v < 168 then 165 else if v < 171 then 170 else if v < 176 then 171 else
    if v < 181 then 180 else if v < 184 then 181 else if v < 187 then 186 else if v < 193 then 187 else
    if v < 199 then 198 else if v < 200 then 199 else if v < 201 then 200 else if v < 206 then 201 else
    if v < 211 then 210 else if v < 214 then 211 else if v < 217 then 216 else if v < 219 then 217 else
    if v < 221 then 220 else if v < 230 then 221 else if v < 239 then 238 else 239
  }

  /** The lowest n bits of v, lowest first. */
  function LowestBits(v: nat, n: nat): (d: Bits)
    ensures |d| == n
  {
    if n == 0 then [] else [v % 2 == 1] + LowestBits(v / 2, n - 1)
  }

  function BitsOf(v: Byte): (d: Bits)
    ensures |d| == 8
  {
    LowestBits(v, 8)
  }

  /** The number a list of bits stands for, lowest first. */
  function ValueOf(b: Bits): (n: nat)
    ensures n < Pow2(|b|)
  {
    if b == [] then 0 else ValueOf(b[1..]) * 2 + if b[0] then 1 else 0
  }

  // ---- balance, bit by bit -------------------------------------------------------------------

  function One(b: bool): nat { if b then 1 else 0 }

  lemma {:induction false} OnesStep(b: Bits, n: nat)
    requires n < |b|
    ensures Ones(b[..n + 1]) == Ones(b[..n]) + One(b[n])
  {
    assert b[..n + 1][..n] == b[..n];
  }

  lemma {:induction false} EightOnes(b: Bits)
    requires |b| == 8
    ensures Ones(b) == One(b[0]) + One(b[1]) + One(b[2]) + One(b[3]) + One(b[4]) + One(b[5]) + One(b[6]) + One(b[7])
  {
    hide Ones;
    OnesNone(b[..0]);
    OnesStep(b, 0); OnesStep(b, 1); OnesStep(b, 2); OnesStep(b, 3);
    OnesStep(b, 4); OnesStep(b, 5); OnesStep(b, 6); OnesStep(b, 7);
    assert b[..8] == b;
  }

  lemma OnesNone(b: Bits)
    requires b == []
    ensures Ones(b) == 0
  {
  }

  lemma {:induction false} ChainStep(d: Bits, xnor: bool, n: nat)
    requires 0 < n < |d|
    ensures Chain(d[..n + 1], xnor) == Chain(d[..n], xnor) + [(Chain(d[..n], xnor)[n - 1] != d[n]) != xnor]
  {
    assert d[..n + 1][..n] == d[..n];
  }

  /** The chain of eight bits, each from the one before. */
  lemma {:induction false} EightChain(d: Bits, xnor: bool)
    requires |d| == 8
    ensures var q := Chain(d, xnor);
            && |q| == 8 && q[0] == d[0]
            && forall n :: 0 < n < 8 ==> q[n] == ((q[n - 1] != d[n]) != xnor)
  {
    var q := Chain(d, xnor);
    ChainPrefix(d, xnor, 1);
    forall n | 0 < n < 8 ensures q[n] == ((q[n - 1] != d[n]) != xnor) {
      ChainStep(d, xnor, n);
      ChainPrefix(d, xnor, n);
      ChainPrefix(d, xnor, n + 1);
    }
  }

  lemma {:induction false} ChainPrefix(d: Bits, xnor: bool, n: nat)
    requires 0 < n <= |d|
    ensures Chain(d[..n], xnor) == Chain(d, xnor)[..n] && Chain(d, xnor)[0] == d[0]
    decreases |d| - n
  {
    if n == |d| {
      assert d[..n] == d;
      ChainHead(d, xnor);
    } else {
      ChainPrefix(d, xnor, n + 1);
      ChainStep(d, xnor, n);
      assert Chain(d, xnor)[..n] == Chain(d, xnor)[..n + 1][..n];
    }
  }

  lemma {:induction false} ChainHead(d: Bits, xnor: bool)
    requires d != []
    ensures Chain(d, xnor)[0] == d[0]
  {
    if |d| > 1 { ChainHead(d[..|d| - 1], xnor); }
  }

  /** Balance of a byte given bit by bit. */
  predicate Even(b0: bool, b1: bool, b2: bool, b3: bool, b4: bool, b5: bool, b6: bool, b7: bool) {
    var n := One(b0) + One(b1) + One(b2) + One(b3) + One(b4) + One(b5) + One(b6) + One(b7);
    var x := n > 4 || (n == 4 && !b0);
    var q1 := (b0 != b1) != x;
    var q2 := (q1 != b2) != x;
    var q3 := (q2 != b3) != x;
    var q4 := (q3 != b4) != x;
    var q5 := (q4 != b5) != x;
    var q6 := (q5 != b6) != x;
    var q7 := (q6 != b7) != x;
    One(b0) + One(q1) + One(q2) + One(q3) + One(q4) + One(q5) + One(q6) + One(q7) == 4
  }

  lemma {:induction false} BalancedIsEven(d: Bits)
    requires |d| == 8
    ensures Balanced(d) <==> Even(d[0], d[1], d[2], d[3], d[4], d[5], d[6], d[7])
  {
    hide Ones, Chain;
    EightOnes(d);
    EightChain(d, Heavy(d));
    EightOnes(Chain(d, Heavy(d)));
  }

  /** The levels among the sixteen bytes with the same high half. */
  lemma {:induction false} LevelsEven(v: Byte, b0: bool, b1: bool, b2: bool, b3: bool, b4: bool, b5: bool, b6: bool, b7: bool)
    requires v == One(b0) + 2 * One(b1) + 4 * One(b2) + 8 * One(b3) + 16 * One(b4) + 32 * One(b5) + 64 * One(b6) + 128 * One(b7)
    ensures IsLevel(v) <==> Even(b0, b1, b2, b3, b4, b5, b6, b7)
  {
  }

  lemma {:induction false} ValueBits(v: nat, n: nat)
    requires v < Pow2(n)
    ensures ValueOf(LowestBits(v, n)) == v
  {
    if n > 0 {
      ValueBits(v / 2, n - 1);
      assert LowestBits(v, n)[1..] == LowestBits(v / 2, n - 1);
    }
  }

  lemma {:induction false} ValueHead(b: Bits, k: nat)
    requires k < |b|
    ensures ValueOf(b[k..]) == One(b[k]) + 2 * ValueOf(b[k + 1..])
  {
    assert b[k..][1..] == b[k + 1..];
  }

  lemma {:induction false} ValueFour(b: Bits, k: nat)
    requires k + 4 <= |b|
    ensures ValueOf(b[k..]) == One(b[k]) + 2 * One(b[k + 1]) + 4 * One(b[k + 2]) + 8 * One(b[k + 3]) + 16 * ValueOf(b[k + 4..])
  {
    hide One, ValueOf;
    ValueHead(b, k);
    ValueHead(b, k + 1);
    ValueHead(b, k + 2);
    ValueHead(b, k + 3);
  }

  lemma {:induction false} BitsAdd(v: Byte)
    ensures var d := BitsOf(v);
            v == One(d[0]) + 2 * One(d[1]) + 4 * One(d[2]) + 8 * One(d[3]) + 16 * One(d[4]) + 32 * One(d[5]) + 64 * One(d[6]) + 128 * One(d[7])
  {
    hide One, ValueOf, LowestBits, Pow2;
    var d := BitsOf(v);
    EightBits();
    ValueBits(v, 8);
    assert d[0..] == d;
    ValueFour(d, 0);
    ValueFour(d, 4);
    ValueNone(d[8..]);
  }

  lemma EightBits()
    ensures Pow2(8) == 256
  {
  }

  lemma ValueNone(b: Bits)
    requires b == []
    ensures ValueOf(b) == 0
  {
  }

  /** The table's levels are exactly the balanced bytes. */
  lemma {:induction false} LevelsAreBalanced(v: Byte)
    ensures IsLevel(v) <==> Balanced(BitsOf(v))
  {
    hide IsLevel, Even, Balanced, LowestBits;
    var d := BitsOf(v);
    BitsAdd(v);
    BalancedIsEven(d);
    LevelsEven(v, d[0], d[1], d[2], d[3], d[4], d[5], d[6], d[7]);
  }

  function Gap(a: Byte, b: Byte): nat { if a < b then b - a else a - b }

  /** c is no farther from v than l, and if as far not below it. */
  predicate Nearer(v: Byte, c: Byte, l: Byte) {
    Gap(v, c) <= Gap(v, l) && (Gap(v, c) == Gap(v, l) ==> l <= c)
  }

  lemma {:induction false} NearDark(v: Byte, l: Byte)
    requires 0 <= v < 64 && IsLevel(l)
    ensures Nearer(v, Nearest(v), l)
  {
  }

  lemma {:induction false} NearDim(v: Byte, l: Byte)
    requires 64 <= v < 128 && IsLevel(l)
    ensures Nearer(v, Nearest(v), l)
  {
  }

  lemma {:induction false} NearBright(v: Byte, l: Byte)
    requires 128 <= v < 192 && IsLevel(l)
    ensures Nearer(v, Nearest(v), l)
  {
  }

  lemma {:induction false} NearWhite(v: Byte, l: Byte)
    requires 192 <= v < 256 && IsLevel(l)
    ensures Nearer(v, Nearest(v), l)
  {
  }

  /** No level is nearer than the table's; of two equally near it is the upper. */
  lemma {:induction false} NearestIsNearest(v: Byte, l: Byte)
    requires IsLevel(l)
    ensures IsLevel(Nearest(v)) && Nearer(v, Nearest(v), l)
  {
    hide Nearer, IsLevel, Nearest;
    NearestIsLevel(v);
    if v < 64 { NearDark(v, l); } else if v < 128 { NearDim(v, l); } else if v < 192 { NearBright(v, l); } else { NearWhite(v, l); }
  }

  /** tmds_is_balanced asks whether the nearest level is the byte itself, and so exactly for balance. */
  lemma {:induction false} IsBalancedIff(v: Byte)
    ensures Nearest(v) == v <==> Balanced(BitsOf(v))
  {
    hide Nearest, IsLevel, Balanced, LowestBits;
    NearestIsLevel(v);
    LevelsAreBalanced(v);
    if IsLevel(v) { NearestIsNearest(v, v); }
  }

  /** tmds_symbol_balanced of tmds_nearest_balanced: the one symbol of a component's level. */
  function LevelSymbol(v: Byte): (s: nat)
    ensures s < 1024
  {
    assert Pow2(10) == 1024;
    ValueOf(Encode(BitsOf(Nearest(v)), 0).0)
  }

  /** It is the level's symbol whatever was sent before, and leaves the counter alone. */
  lemma {:induction false} LevelSymbolStateless(v: Byte, disparity: int)
    ensures Encode(BitsOf(Nearest(v)), disparity).1 == disparity
    ensures LevelSymbol(v) == ValueOf(Encode(BitsOf(Nearest(v)), disparity).0)
    ensures Decode(Encode(BitsOf(Nearest(v)), disparity).0) == BitsOf(Nearest(v))
  {
    hide Encode, Decode, Nearest, IsLevel, Balanced, LowestBits;
    NearestIsLevel(v);
    LevelsAreBalanced(Nearest(v));
    BalancedIsStateless(BitsOf(Nearest(v)));
    DecodeEncode(BitsOf(Nearest(v)), disparity);
  }

  lemma NearestIsLevel(v: Byte)
    ensures IsLevel(Nearest(v))
  {
  }
}
