/** The numbers of path text: what the parts handed to the conversion stand for. */
module PathNumber {
  import opened Prelude
  import opened Path

  datatype Sign = NoSign | Plus | Minus

  datatype ExpText = ExpText(e: Byte, sign: Sign, digits: seq<Byte>)

  /** A number as written: sign, digits, point, digits, exponent. */
  datatype NumText = NumText(sign: Sign, whole: seq<Byte>, dot: bool, frac: seq<Byte>, exp: Option<ExpText>)

  function SignText(s: Sign): (t: seq<Byte>)
    ensures |t| <= 1
  {
    match s
    case NoSign => []
    case Plus => ['+' as int]
    case Minus => ['-' as int]
  }

  function FracText(n: NumText): seq<Byte> {
    if n.dot then ['.' as int] + n.frac else []
  }

  function ExpPart(x: Option<ExpText>): seq<Byte> {
    if x.Some? then [x.value.e] + SignText(x.value.sign) + x.value.digits else []
  }

  function Text(n: NumText): seq<Byte> {
    SignText(n.sign) + n.whole + FracText(n) + ExpPart(n.exp)
  }

  predicate AllDigits(s: seq<Byte>) { forall i :: 0 <= i < |s| ==> IsDigit(s[i]) }

  /** A number of the grammar: digits on one side of the point at least, and after an exponent's e. */
  predicate NumOk(n: NumText) {
    && AllDigits(n.whole) && AllDigits(n.frac) && n.whole + n.frac != [] && (!n.dot ==> n.frac == [])
    && (n.exp.Some? ==> IsE(n.exp.value.e) && AllDigits(n.exp.value.digits) && n.exp.value.digits != [])
  }

  // ---- digits --------------------------------------------------------------------------------

  /** What the digits so far came to: their value is the mantissa and k dropped digits worth rem. */
  ghost predicate Sig(m: Mant, u: seq<Byte>, f: nat, k: nat, rem: nat) {
    && Val(u) == m.mant * Pow10(k) + rem && rem < Pow10(k)
    && m.e == k - f && (m.truncated <==> k > 0)
    && m.ndig <= 9 && m.mant < Pow10(m.ndig) && (m.ndig > 0 ==> m.mant >= Pow10(m.ndig - 1))
    && (k > 0 ==> m.ndig == 9)
  }

  function Taken(m: Mant, ds: seq<Byte>, frac: bool): Mant
    requires AllDigits(ds)
    decreases |ds|
  {
    if ds == [] then m else Taken(if frac then FracDigit(m, ds[0]) else IntDigit(m, ds[0]), ds[1..], frac)
  }

  /** A stretch of digits, up to what ends it. */
  lemma {:induction false} DigitsTaken(s: seq<Byte>, i: nat, j: nat, m: Mant, frac: bool)
    requires i <= j <= |s| && AllDigits(s[i..j]) && (j < |s| ==> !IsDigit(s[j]))
    ensures DecimalDigits(s, i, m, frac) == (Taken(m, s[i..j], frac), j)
    decreases j - i
  {
    if i < j {
      assert s[i..j][0] == s[i] && s[i..j][1..] == s[i + 1..j];
      DigitsTaken(s, i + 1, j, if frac then FracDigit(m, s[i]) else IntDigit(m, s[i]), frac);
    }
  }

  lemma {:induction false} ValMore(u: seq<Byte>, c: Byte)
    ensures Val(u + [c]) == 10 * Val(u) + DigitOf(c)
  {
    assert (u + [c])[..|u|] == u;
  }

  lemma Tens(a: nat, p: nat, r: nat)
    ensures 10 * (a * p + r) == a * (10 * p) + 10 * r && 10 * (a * p + r) == a * 10 * p + 10 * r
  {
    assert a * (10 * p) == 10 * (a * p) && a * 10 * p == 10 * (a * p);
  }

  lemma {:induction false} KeptDigit(m: Mant, u: seq<Byte>, f: nat, k: nat, rem: nat, c: Byte, frac: bool)
    requires Sig(m, u, f, k, rem) && IsDigit(c) && m.ndig < 9
    ensures Sig(if frac then FracDigit(m, c) else IntDigit(m, c), u + [c], if frac then f + 1 else f, 0, 0)
  {
    ValMore(u, c);
    assert k == 0 && rem == 0 && Pow10(0) == 1;
  }

  lemma {:induction false} DroppedDigit(m: Mant, u: seq<Byte>, f: nat, k: nat, rem: nat, c: Byte, frac: bool)
    requires Sig(m, u, f, k, rem) && IsDigit(c) && m.ndig == 9
    ensures Sig(if frac then FracDigit(m, c) else IntDigit(m, c), u + [c], if frac then f + 1 else f, k + 1, 10 * rem + DigitOf(c))
  {
    ValMore(u, c);
    Tens(m.mant, Pow10(k), rem);
  }

  lemma {:induction false} TakenSig(m: Mant, u: seq<Byte>, f: nat, k: nat, rem: nat, ds: seq<Byte>, frac: bool)
    returns (k': nat, rem': nat)
    requires Sig(m, u, f, k, rem) && AllDigits(ds)
    ensures Sig(Taken(m, ds, frac), u + ds, if frac then f + |ds| else f, k', rem')
    decreases |ds|
  {
    hide Sig;
    if ds == [] {
      assert u + ds == u;
      return k, rem;
    }
    var d := if frac then FracDigit(m, ds[0]) else IntDigit(m, ds[0]);
    assert (u + [ds[0]]) + ds[1..] == u + ds;
    assert m.ndig <= 9 by { SigFew(m, u, f, k, rem); }
    if m.ndig < 9 {
      KeptDigit(m, u, f, k, rem, ds[0], frac);
      k', rem' := TakenSig(d, u + [ds[0]], if frac then f + 1 else f, 0, 0, ds[1..], frac);
    } else {
      DroppedDigit(m, u, f, k, rem, ds[0], frac);
      k', rem' := TakenSig(d, u + [ds[0]], if frac then f + 1 else f, k + 1, 10 * rem + DigitOf(ds[0]), ds[1..], frac);
    }
  }

  lemma SigFew(m: Mant, u: seq<Byte>, f: nat, k: nat, rem: nat)
    requires Sig(m, u, f, k, rem)
    ensures m.ndig <= 9
  {
  }

  // ---- the exponent --------------------------------------------------------------------------

  /** The program's exponent: exact below 10000, and from 1000 on when it is not. */
  predicate ExpNear(ev: nat, v: nat) {
    if v < 10000 then ev == v else 1000 <= ev <= v
  }

  lemma {:induction false} ExpTaken(s: seq<Byte>, i: nat, ev: nat, u: seq<Byte>)
    requires i <= |s| && AllDigits(s[i..]) && ExpNear(ev, Val(u))
    ensures ExpNear(ExpDigits(s, i, ev), Val(u + s[i..]))
    decreases |s| - i
  {
    if i < |s| {
      assert s[i..][0] == s[i] && s[i..][1..] == s[i + 1..];
      ValMore(u, s[i]);
      assert u + [s[i]] + s[i + 1..] == u + s[i..];
      ExpTaken(s, i + 1, if ev < 1000 then ev * 10 + DigitOf(s[i]) else ev, u + [s[i]]);
    } else {
      assert u + s[i..] == u;
    }
  }

  /** The exponent a number is written with; 0 when it has none. */
  function ExpOf(x: Option<ExpText>): int {
    if x == None then 0 else if x.value.sign.Minus? then 0 - Val(x.value.digits) else Val(x.value.digits)
  }

  /** The exponent as read: the one written, unless it is far out. */
  predicate ExpRead(e: int, written: int) {
    if -10000 < written < 10000 then e == written
    else if written > 0 then 1000 <= e <= written else written <= e <= -1000
  }

  lemma {:induction false} ExpIs(s: seq<Byte>, i: nat, x: ExpText)
    requires i <= |s| && s[i..] == SignText(x.sign) + x.digits && AllDigits(x.digits) && x.digits != []
    ensures ExpRead(ExpValue(s, i), ExpOf(Some(x)))
  {
    hide ExpDigits, SignText, Val;
    SplitAt(s, i, SignText(x.sign), x.digits);
    assert SignText(x.sign) == match x.sign case NoSign => [] case Plus => ['+' as int] case Minus => ['-' as int] by { SignIs(x.sign); }
    ExpTaken(s, i + |SignText(x.sign)|, 0, []) by { ValNothing(); }
    assert [] + x.digits == x.digits;
  }

  lemma SignIs(s: Sign)
    ensures SignText(s) == match s case NoSign => [] case Plus => ['+' as int] case Minus => ['-' as int]
  {
  }

  lemma ValNothing()
    ensures Val([]) == 0
  {
  }

  lemma {:induction false} SplitAt(s: seq<Byte>, i: nat, a: seq<Byte>, b: seq<Byte>)
    requires i <= |s| && s[i..] == a + b
    ensures i + |a| <= |s| && s[i + |a|..] == b
    ensures (a != [] ==> s[i] == a[0]) && (a == [] && b != [] ==> i < |s| && s[i] == b[0])
  {
    assert s[i + |a|..] == s[i..][|a|..];
    if a + b != [] { assert s[i] == s[i..][0]; }
  }

  // ---- the number ----------------------------------------------------------------------------

  lemma {:induction false} Slices(a: seq<Byte>, b: seq<Byte>, c: seq<Byte>, d: seq<Byte>)
    ensures var s := a + b + c + d;
            && s[|a|..|a| + |b|] == b && s[|a| + |b|..|a| + |b| + |c|] == c && s[|a| + |b| + |c|..] == d
            && (a != [] ==> s[0] == a[0]) && (b != [] ==> s[|a|] == b[0])
            && (c != [] ==> s[|a| + |b|] == c[0] && s[|a| + |b| + 1..|a| + |b| + |c|] == c[1..])
            && (d != [] ==> s[|a| + |b| + |c|] == d[0] && s[|a| + |b| + |c| + 1..] == d[1..])
  {
  }

  /** Where the parts of the text are. */
  function WholeAt(n: NumText): nat { |SignText(n.sign)| }

  function FracAt(n: NumText): nat { WholeAt(n) + |n.whole| }

  function ExpAt(n: NumText): nat { FracAt(n) + |FracText(n)| }

  lemma {:induction false} Places(n: NumText)
    requires NumOk(n)
    ensures var (s, a, b, c) := (Text(n), WholeAt(n), FracAt(n), ExpAt(n));
            && a <= b <= c <= |s| && s[a..b] == n.whole && s[b..c] == FracText(n) && s[c..] == ExpPart(n.exp)
            && (n.dot ==> b < c && s[b] == '.' as int && s[b + 1..c] == n.frac) && (!n.dot ==> c == b)
            && (n.exp.Some? ==> c < |s| && s[c] == n.exp.value.e && s[c + 1..] == SignText(n.exp.value.sign) + n.exp.value.digits)
            && (n.exp == None ==> c == |s|)
  {
    hide SignText, FracText, ExpPart, AllDigits;
    FracShape(n);
    ExpShape(n.exp);
    Slices(SignText(n.sign), n.whole, FracText(n), ExpPart(n.exp));
  }

  lemma {:induction false} FracShape(n: NumText)
    ensures if n.dot then FracText(n) != [] && FracText(n)[0] == '.' as int && FracText(n)[1..] == n.frac else FracText(n) == []
  {
  }

  lemma {:induction false} ExpShape(x: Option<ExpText>)
    ensures if x.Some? then ExpPart(x) != [] && ExpPart(x)[0] == x.value.e && ExpPart(x)[1..] == SignText(x.value.sign) + x.value.digits
            else ExpPart(x) == []
  {
  }

  lemma {:induction false} SignPlace(n: NumText)
    requires NumOk(n)
    ensures Text(n) != [] && WholeAt(n) == (if IsSign(Text(n)[0]) then 1 else 0) && (Text(n)[0] == '-' as int <==> n.sign.Minus?)
  {
    Slices(SignText(n.sign), n.whole, FracText(n), ExpPart(n.exp));
    if n.sign.NoSign? && n.whole == [] {
      assert n.dot;
      assert Text(n)[0] == FracText(n)[0];
    }
  }

  /** The digits of both sides, as the parser goes through them. */
  lemma {:induction false} BothTaken(n: NumText)
    requires NumOk(n)
    ensures var (s, m1) := (Text(n), Taken(Mant(0, 0, 0, false), n.whole, false));
            && WholeAt(n) <= |s| && DecimalDigits(s, WholeAt(n), Mant(0, 0, 0, false), false) == (m1, FracAt(n))
            && FracAt(n) <= ExpAt(n) <= |s|
            && (FracAt(n) < |s| && s[FracAt(n)] == '.' as int <==> n.dot)
            && (n.dot ==> DecimalDigits(s, FracAt(n) + 1, m1, true) == (Taken(m1, n.frac, true), ExpAt(n)))
            && (!n.dot ==> ExpAt(n) == FracAt(n))
  {
    hide DecimalDigits, Taken, Text, WholeAt, FracAt, ExpAt;
    Places(n);
    DigitsTaken(Text(n), WholeAt(n), FracAt(n), Mant(0, 0, 0, false), false);
    if n.dot { DigitsTaken(Text(n), FracAt(n) + 1, ExpAt(n), Taken(Mant(0, 0, 0, false), n.whole, false), true); }
  }

  /** All digits of the number taken, one side after the other. */
  function AllTaken(n: NumText): Mant
    requires NumOk(n)
  {
    var m1 := Taken(Mant(0, 0, 0, false), n.whole, false);
    if n.dot then Taken(m1, n.frac, true) else m1
  }

  lemma {:induction false} AllSig(n: NumText) returns (k: nat, rem: nat)
    requires NumOk(n)
    ensures Sig(AllTaken(n), n.whole + n.frac, |n.frac|, k, rem)
  {
    hide Sig, Taken;
    var m0 := Mant(0, 0, 0, false);
    SigNone();
    k, rem := TakenSig(m0, [], 0, 0, 0, n.whole, false);
    assert [] + n.whole == n.whole;
    if n.dot {
      k, rem := TakenSig(Taken(m0, n.whole, false), n.whole, 0, k, rem, n.frac, true);
    } else {
      assert n.whole + n.frac == n.whole;
    }
  }

  /** The parser's own account of the number. */
  lemma {:induction false} ParseParts(conv: Conv, n: NumText) returns (x: int)
    requires NumOk(n)
    ensures ExpRead(x, ExpOf(n.exp))
    ensures var m := AllTaken(n);
            var e := if m.mant == 0 then 0 else m.e + x;
            var dec: int := m.mant;
            Parse(conv, Text(n)) == Num(conv(m.mant, e, n.sign.Minus?), if n.sign.Minus? then 0 - dec else dec, if -2 <= e <= 0 then -e else 0,
                                        n.exp == None && !m.truncated && -2 <= e <= 0 && m.mant < 0x8000_0000)
  {
    hide DecimalDigits, Taken, Text, WholeAt, FracAt, ExpAt, ExpValue, ExpRead, ExpOf;
    SignPlace(n);
    BothTaken(n);
    Places(n);
    if n.exp.Some? {
      x := ExpValue(Text(n), ExpAt(n) + 1);
      ExpIs(Text(n), ExpAt(n) + 1, n.exp.value);
    } else {
      x := 0;
      assert ExpRead(0, ExpOf(None)) by { NoExp(); }
    }
  }

  lemma NoExp()
    ensures ExpRead(0, ExpOf(None))
  {
  }

  /** What parsing hands to the conversion: the sign, and mantissa m and exponent e with
      (m * 10^k + rem) / 10^k * 10^e the value written, rem being the k digits dropped after nine
      significant ones; nothing is dropped when k is 0. A number is compact exactly when it has no
      exponent, lost no digit and has at most two decimals; it is then dec / 10^places. */
  lemma {:induction false} ParseIs(conv: Conv, n: NumText) returns (m: nat, e: int, x: int, k: nat, rem: nat)
    requires NumOk(n)
    ensures Parse(conv, Text(n)).value == conv(m, e, n.sign.Minus?)
    ensures Val(n.whole + n.frac) == m * Pow10(k) + rem && rem < Pow10(k) && m < 1_000_000_000 && (k > 0 ==> m >= 100_000_000)
    ensures ExpRead(x, ExpOf(n.exp)) && e == if m == 0 then 0 else x - |n.frac| + k
    ensures var p := Parse(conv, Text(n));
            && (p.compact <==> n.exp == None && k == 0 && -2 <= e <= 0)
            && (p.compact ==> p.dec == (if n.sign.Minus? then 0 - m else m) && p.k == -e)
  {
    hide Sig, AllTaken, Text, Val, ExpRead, ExpOf, Parse;
    x := ParseParts(conv, n);
    k, rem := AllSig(n);
    var t := AllTaken(n);
    m, e := t.mant, if t.mant == 0 then 0 else t.e + x;
    SigIs(t, n.whole + n.frac, |n.frac|, k, rem);
  }

  lemma SigNone()
    ensures Sig(Mant(0, 0, 0, false), [], 0, 0, 0)
  {
  }

  lemma SigIs(m: Mant, u: seq<Byte>, f: nat, k: nat, rem: nat)
    requires Sig(m, u, f, k, rem)
    ensures Val(u) == m.mant * Pow10(k) + rem && rem < Pow10(k) && m.mant < 1_000_000_000 && (k > 0 ==> m.mant >= 100_000_000)
    ensures m.e == k - f && (m.truncated <==> k > 0)
  {
    hide Val;
    PowersUpTo9(m.ndig);
    PowersUpTo9(8);
  }

  lemma PowersUpTo9(n: nat)
    requires n <= 9
    ensures Pow10(n) <= 1_000_000_000 && (n == 8 ==> Pow10(n) == 100_000_000)
  {
    assert Pow10(4) == 10000;
    assert Pow10(8) == 100_000_000;
    assert Pow10(9) == 1_000_000_000;
  }
}
