/** The TMDS encoder of DVI 1.0, figure 3-5. A byte is its eight bits and a symbol its ten, lowest
    first; on the wire a one counts +1 and a zero -1. */
module Tmds {
  import opened Prelude

  type Bits = seq<bool>

  function Ones(b: Bits): (n: nat)
    ensures n <= |b|
  {
    if b == [] then 0 else Ones(b[..|b| - 1]) + if b[|b| - 1] then 1 else 0
  }

  /** Ones minus zeros. */
  function Imbalance(b: Bits): (i: int)
    ensures -|b| <= i <= |b| && (i - |b|) % 2 == 0
  {
    2 * Ones(b) - |b|
  }

  function Flip(b: Bits): (r: Bits)
    ensures |r| == |b|
    ensures forall i :: 0 <= i < |b| ==> r[i] == !b[i]
  {
    if b == [] then [] else Flip(b[..|b| - 1]) + [!b[|b| - 1]]
  }

  lemma {:induction false} FlipOnes(b: Bits)
    ensures Imbalance(Flip(b)) == -Imbalance(b)
    ensures Flip(Flip(b)) == b
  {
    if b != [] {
      var n := |b| - 1;
      FlipOnes(b[..n]);
      assert Flip(b)[..n] == Flip(b[..n]);
    }
  }

  lemma {:induction false} OnesJoin(a: Bits, b: Bits)
    ensures Imbalance(a + b) == Imbalance(a) + Imbalance(b)
  {
    if b == [] {
      assert a + b == a;
    } else {
      var n := |b| - 1;
      OnesJoin(a, b[..n]);
      assert (a + b)[..|a + b| - 1] == a + b[..n];
    }
  }

  // ---- stage 1: transition minimisation ------------------------------------------------------

  /** The byte is heavy in ones, so the chain is XNOR rather than XOR. */
  predicate Heavy(d: Bits)
    requires |d| > 0
  {
    Ones(d) > 4 || (Ones(d) == 4 && !d[0])
  }

  /** Each bit of the chain is the one before it combined with the data bit. */
  function Chain(d: Bits, xnor: bool): (q: Bits)
    ensures |q| == |d|
  {
    if d == [] then []
    else if |d| == 1 then d
    else
      var q := Chain(d[..|d| - 1], xnor);
      q + [(q[|q| - 1] != d[|d| - 1]) != xnor]
  }

  /** The data bits back from a chain: every bit compared with the one before. */
  function Unchain(q: Bits, xnor: bool): (d: Bits)
    ensures |d| == |q|
  {
    if q == [] then []
    else if |q| == 1 then q
    else Unchain(q[..|q| - 1], xnor) + [(q[|q| - 1] != q[|q| - 2]) != xnor]
  }

  lemma {:induction false} UnchainChain(d: Bits, xnor: bool)
    ensures Unchain(Chain(d, xnor), xnor) == d
  {
    if |d| > 1 {
      var n := |d| - 1;
      UnchainChain(d[..n], xnor);
      assert Chain(d, xnor)[..n] == Chain(d[..n], xnor);
    }
  }

  /** How often the wire changes within the bits. */
  function Transitions(b: Bits): (n: nat) {
    if |b| < 2 then 0 else Transitions(b[..|b| - 1]) + if b[|b| - 1] != b[|b| - 2] then 1 else 0
  }

  lemma {:induction false} FlipTransitions(b: Bits)
    ensures Transitions(Flip(b)) == Transitions(b)
  {
    if |b| > 1 {
      FlipTransitions(b[..|b| - 1]);
      assert Flip(b)[..|b| - 1] == Flip(b[..|b| - 1]);
    }
  }

  /** A chain changes at the ones of the data, or, when it is an XNOR chain, at the zeros. */
  lemma {:induction false} ChainTransitions(d: Bits, xnor: bool)
    requires d != []
    ensures Transitions(Chain(d, xnor)) == if xnor then |d| - 1 - Ones(d[1..]) else Ones(d[1..])
  {
    if |d| > 1 {
      var n := |d| - 1;
      ChainTransitions(d[..n], xnor);
      assert Chain(d, xnor)[..n] == Chain(d[..n], xnor);
      assert d[1..][..n - 1] == d[..n][1..];
    }
  }

  lemma {:induction false} OnesFirst(d: Bits)
    requires d != []
    ensures Ones(d) == Ones(d[1..]) + if d[0] then 1 else 0
  {
    if |d| > 1 {
      OnesFirst(d[..|d| - 1]);
      assert d[1..][..|d| - 2] == d[..|d| - 1][1..];
    }
  }

  // ---- stage 2: DC balance -------------------------------------------------------------------

  /** The symbol for d when the wire is `disparity` ones ahead, and how far ahead it then is. */
  function Encode(d: Bits, disparity: int): (r: (Bits, int))
    requires |d| == 8
    ensures |r.0| == 10
  {
    var low, xor := Chain(d, Heavy(d)), !Heavy(d);
    var imb := Imbalance(low);
    if disparity == 0 || imb == 0 then
      if xor then (low + [true, false], disparity + imb) else (Flip(low) + [false, true], disparity - imb)
    else if (disparity > 0) == (imb > 0) then
      (Flip(low) + [xor, true], disparity + (if xor then 2 else 0) - imb)
    else
      (low + [xor, false], disparity + imb - if xor then 0 else 2)
  }

  function Decode(q: Bits): (d: Bits)
    requires |q| == 10
    ensures |d| == 8
  {
    Unchain(if q[9] then Flip(q[..8]) else q[..8], !q[8])
  }

  lemma {:induction false} DecodeEncode(d: Bits, disparity: int)
    requires |d| == 8
    ensures Decode(Encode(d, disparity).0) == d
  {
    hide Heavy;
    var low := Chain(d, Heavy(d));
    UnchainChain(d, Heavy(d));
    FlipOnes(low);
    var q := Encode(d, disparity).0;
    assert q[..8] == low || q[..8] == Flip(low);
  }

  /** Transition minimised: within its eight bits a symbol changes at most three times; the other kind of
      chain would change at least four. */
  lemma {:induction false} FewTransitions(d: Bits, disparity: int)
    requires |d| == 8
    ensures Transitions(Encode(d, disparity).0[..8]) <= 3
    ensures Transitions(Chain(d, !Heavy(d))) >= 4
  {
    var low := Chain(d, Heavy(d));
    ChainTransitions(d, true);
    ChainTransitions(d, false);
    OnesFirst(d);
    FlipTransitions(low);
    hide Chain, Transitions, Heavy;
    var q := Encode(d, disparity).0;
    assert q[..8] == low || q[..8] == Flip(low);
  }

  /** The counter moves by exactly what the symbol sends. */
  lemma {:induction false} EncodeCounts(d: Bits, disparity: int)
    requires |d| == 8
    ensures Encode(d, disparity).1 - disparity == Imbalance(Encode(d, disparity).0)
  {
    hide Heavy, Imbalance;
    var low := Chain(d, Heavy(d));
    FlipOnes(low);
    Tails();
    OnesJoin(low, [true, false]);
    OnesJoin(Flip(low), [false, true]);
    OnesJoin(Flip(low), [!Heavy(d), true]);
    OnesJoin(low, [!Heavy(d), false]);
  }

  lemma {:induction false} Tails()
    ensures Imbalance([true, false]) == 0 && Imbalance([false, true]) == 0
    ensures Imbalance([true, true]) == 2 && Imbalance([false, false]) == -2
  {
    assert [true, false][..1] == [true] && [false, true][..1] == [false];
    assert [true, true][..1] == [true] && [false, false][..1] == [false];
    assert Ones([true]) == 1 && Ones([false]) == 0;
  }

  /** What the counter always is between symbols. */
  predicate Bounded(disparity: int) {
    -8 <= disparity <= 8 && disparity % 2 == 0
  }

  lemma {:induction false} EncodeBounded(d: Bits, disparity: int)
    requires |d| == 8 && Bounded(disparity)
    ensures Bounded(Encode(d, disparity).1)
  {
    hide Heavy, Ones;
    assert |Chain(d, Heavy(d))| == 8;
  }

  /** A byte whose minimised form has as many ones as zeros. */
  predicate Balanced(d: Bits)
    requires |d| == 8
  {
    Imbalance(Chain(d, Heavy(d))) == 0
  }

  /** A balanced byte has one symbol, whatever was sent before, and leaves the counter alone; no other
      byte does both. */
  lemma {:induction false} BalancedIsStateless(d: Bits)
    requires |d| == 8
    ensures Balanced(d) <==> forall disparity: int :: Encode(d, disparity) == (Encode(d, 0).0, disparity)
  {
    hide Chain, Heavy, Flip, Imbalance;
    if Balanced(d) {
      forall disparity: int ensures Encode(d, disparity) == (Encode(d, 0).0, disparity) {
      }
    } else {
      assert Encode(d, 0) != (Encode(d, 0).0, 0);
    }
  }

  // ---- whole streams -------------------------------------------------------------------------

  /** The symbols for a stream of bytes and the counter after it. */
  function EncodeAll(bytes: seq<Bits>): (r: (seq<Bits>, int))
    requires forall i :: 0 <= i < |bytes| ==> |bytes[i]| == 8
    ensures |r.0| == |bytes| && forall i :: 0 <= i < |r.0| ==> |r.0[i]| == 10
  {
    if bytes == [] then ([], 0)
    else
      var (q, n) := EncodeAll(bytes[..|bytes| - 1]);
      var (s, m) := Encode(bytes[|bytes| - 1], n);
      (q + [s], m)
  }

  function Sum(symbols: seq<Bits>): int {
    if symbols == [] then 0 else Sum(symbols[..|symbols| - 1]) + Imbalance(symbols[|symbols| - 1])
  }

  /** For every stream: each symbol decodes to its byte, and the counter is exactly the ones sent less
      the zeros sent, never more than eight either way. */
  lemma {:induction false} StreamSound(bytes: seq<Bits>)
    requires forall i :: 0 <= i < |bytes| ==> |bytes[i]| == 8
    ensures forall i :: 0 <= i < |bytes| ==> Decode(EncodeAll(bytes).0[i]) == bytes[i]
    ensures EncodeAll(bytes).1 == Sum(EncodeAll(bytes).0) && Bounded(EncodeAll(bytes).1)
  {
    hide Encode, Decode, Imbalance;
    if bytes != [] {
      var k := |bytes| - 1;
      StreamSound(bytes[..k]);
      var (q, n) := EncodeAll(bytes[..k]);
      DecodeEncode(bytes[k], n);
      EncodeCounts(bytes[k], n);
      EncodeBounded(bytes[k], n);
      assert EncodeAll(bytes).0[..k] == q;
    }
  }

  // ---- the encoder's code --------------------------------------------------------------------

  method CountOnes(d: Bits) returns (n: nat)
    ensures n == Ones(d)
  {
    n := 0;
    for i := 0 to |d|
      invariant n == Ones(d[..i])
    {
      assert d[..i + 1][..i] == d[..i];
      if d[i] { n := n + 1; }
    }
    assert d[..|d|] == d;
  }

  method BuildChain(d: Bits, xnor: bool) returns (q: Bits)
    requires |d| == 8
    ensures q == Chain(d, xnor)
  {
    q := [d[0]];
    assert d[..1] == [d[0]];
    for i := 0 to 7
      invariant q == Chain(d[..i + 1], xnor)
    {
      assert d[..i + 2][..i + 1] == d[..i + 1];
      q := q + [(q[i] != d[i + 1]) != xnor];
    }
    assert d[..8] == d;
  }

  lemma {:induction false} EncodeSound(d: Bits, disparity: int)
    requires |d| == 8
    ensures Decode(Encode(d, disparity).0) == d
    ensures Encode(d, disparity).1 - disparity == Imbalance(Encode(d, disparity).0)
    ensures Bounded(disparity) ==> Bounded(Encode(d, disparity).1)
  {
    hide Decode, Encode, Imbalance;
    DecodeEncode(d, disparity);
    EncodeCounts(d, disparity);
    if Bounded(disparity) { EncodeBounded(d, disparity); }
  }

  method ByteImbalance(b: Bits) returns (i: int)
    requires |b| == 8
    ensures i == Imbalance(b)
  {
    var n: int := CountOnes(b);
    i := 2 * n - 8;
  }

  /** tmds_encode_byte. */
  method EncodeByte(d: Bits, disparity: int) returns (q: Bits, disparity': int)
    requires |d| == 8
    ensures (q, disparity') == Encode(d, disparity)
    ensures Decode(q) == d && disparity' - disparity == Imbalance(q)
    ensures Bounded(disparity) ==> Bounded(disparity')
  {
    hide Chain, Flip, Decode, Ones, Imbalance;
    EncodeSound(d, disparity);
    var ones := CountOnes(d);
    var heavy := ones > 4 || (ones == 4 && !d[0]);
    var low := BuildChain(d, heavy);
    var imb := ByteImbalance(low);
    if disparity == 0 || imb == 0 {
      if !heavy {
        q, disparity' := low + [true, false], disparity + imb;
      } else {
        q, disparity' := Flip(low) + [false, true], disparity - imb;
      }
    } else if (disparity > 0) == (imb > 0) {
      q, disparity' := Flip(low) + [!heavy, true], disparity + (if heavy then 0 else 2) - imb;
    } else {
      q, disparity' := low + [!heavy, false], disparity + imb - if heavy then 2 else 0;
    }
  }

  /** tmds_decode_symbol. */
  method DecodeSymbol(q: Bits) returns (d: Bits)
    requires |q| == 10
    ensures d == Decode(q)
  {
    var low := if q[9] then Flip(q[..8]) else q[..8];
    d := [low[0]];
    assert low[..1] == [low[0]];
    for i := 1 to 8
      invariant d == Unchain(low[..i], !q[8])
    {
      assert low[..i + 1][..i] == low[..i];
      d := d + [(low[i] != low[i - 1]) != !q[8]];
    }
    assert low[..8] == low;
  }
}
