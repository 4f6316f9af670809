/** How many fraction bits the converter is exact for. Eight is the limit: from nine on the digits
    given up to make room can decide a rounding, and for each number of bits there is a text, short
    enough for the tokenizer, whose result is off by one. */
module JsonFixedLimit {
  import opened Prelude
  import opened Json
  import opened JsonNumber
  import opened JsonFixed

  // ---- a number as text ----------------------------------------------------------------------

  function Digit(d: nat): (c: Byte)
    requires d < 10
    ensures IsDigit(c) && DigitOf(c) == d && (c == '0' as int <==> d == 0) && c != '-' as int
  {
    '0' as int + d
  }

  function Numeral(n: nat): (s: seq<Byte>)
    ensures s != [] && (forall i :: 0 <= i < |s| ==> IsDigit(s[i]) && s[i] != '-' as int)
    ensures n > 0 ==> s[0] != '0' as int
  {
    if n < 10 then [Digit(n)] else Numeral(n / 10) + [Digit(n % 10)]
  }

  lemma {:induction false} NumeralValue(n: nat)
    ensures Val(Numeral(n)) == n
  {
    if n < 10 {
      ValMore([], Digit(n));
      assert [] + [Digit(n)] == [Digit(n)];
      ValNone([]);
    } else {
      NumeralValue(n / 10);
      ValMore(Numeral(n / 10), Digit(n % 10));
    }
  }

  lemma {:induction false} NumeralLength(n: nat, l: nat)
    requires n < Pow10(l) && l > 0
    ensures |Numeral(n)| <= l
  {
    if n >= 10 { NumeralLength(n / 10, l - 1); }
  }

  /** c * 10^-x. */
  function Text(c: nat, x: nat): seq<Byte> {
    Numeral(c) + ['e' as int, '-' as int] + Numeral(x)
  }

  lemma {:induction false} TextIs(c: nat, x: nat)
    requires c > 0
    ensures IsNumber(Text(c, x)) && ExactValue(Text(c, x)) == Dec(false, c, Minus(x))
  {
    hide Numeral, Val;
    var a, b, t := Numeral(c), Numeral(x), Text(c, x);
    assert t[0] == a[0];
    assert Magnitude(t) == t;
    LeadingDigits(t, |a|);
    var rest := t[|a|..];
    assert t[..|a|] == a;
    assert rest == ['e' as int, '-' as int] + b;
    assert rest[1..] == ['-' as int] + b;
    assert Unsigned(rest[1..]) == b;
    LeadingDigits(b, |b|);
    NumeralValue(c);
    NumeralValue(x);
    assert AfterPoint(rest) == [] && PastFraction(rest) == rest;
    assert IntDigits(t) + AfterPoint(rest) == a;
  }

  lemma {:induction false} LeadingDigits(t: seq<Byte>, n: nat)
    requires n <= |t| && (forall i :: 0 <= i < n ==> IsDigit(t[i])) && (n < |t| ==> !IsDigit(t[n]))
    ensures Digits(t) == n
  {
    assert t[0..] == t;
    DigitsAt(t, 0, n);
  }

  // ---- the witnesses -------------------------------------------------------------------------

  /** A tie in units of 10^-10, just past 64 bits. */
  const TIE := 18_446_744_075_000_000_000
  const TIE_RESULT := 1_844_674_407

  /** For 9, 10, .. 30 bits the least number of 10^-10 that, times 2^bits, reaches the tie. */
  const WITNESSES: seq<nat> :=
    [36_028_797_021_484_375, 18_014_398_510_742_188, 9_007_199_255_371_094, 4_503_599_627_685_547, 2_251_799_813_842_774,
     1_125_899_906_921_387, 562_949_953_460_694, 281_474_976_730_347, 140_737_488_365_174, 70_368_744_182_587,
     35_184_372_091_294, 17_592_186_045_647, 8_796_093_022_824, 4_398_046_511_412, 2_199_023_255_706,
     1_099_511_627_853, 549_755_813_927, 274_877_906_964, 137_438_953_482, 68_719_476_741,
     34_359_738_371, 17_179_869_186]

  const POWERS: seq<nat> :=
    [512, 1_024, 2_048, 4_096, 8_192, 16_384,
     32_768, 65_536, 131_072, 262_144, 524_288, 1_048_576,
     2_097_152, 4_194_304, 8_388_608, 16_777_216, 33_554_432, 67_108_864,
     134_217_728, 268_435_456, 536_870_912, 1_073_741_824]

  /** Its last digit carries it there, and is the one that is dropped. */
  ghost predicate Decisive(c: nat, p: nat) {
    && 0 < p <= 0x4000_0000 && 0 < c < E18
    && TIE <= c * p < TIE + p && c / 10 * p * 10 < TIE <= c / 10 * p * 10 + 10 * p
    && c / 10 <= UINT64_MAX / p < c
  }

  lemma PowerTable(bits: nat)
    requires 9 <= bits <= 30
    ensures Pow2(bits) == POWERS[bits - 9]
  {
    if bits == 9 { assert Pow2(9) == 512; } else { PowerTable(bits - 1); }
  }

  lemma {:induction false} FirstDecide(i: nat)
    requires i < 11
    ensures Decisive(WITNESSES[i], POWERS[i])
  {
  }

  lemma {:induction false} LastDecide(i: nat)
    requires 11 <= i < 22
    ensures Decisive(WITNESSES[i], POWERS[i])
  {
  }

  lemma {:induction false} WitnessesDecide(bits: nat)
    requires 9 <= bits <= 30
    ensures Decisive(WITNESSES[bits - 9], Pow2(bits))
  {
    hide Pow2, Decisive;
    PowerTable(bits);
    if bits < 20 { FirstDecide(bits - 9); } else { LastDecide(bits - 9); }
  }

  /** The exact value rounds up at the tie; the code, a digit short of it, rounds down. */
  lemma {:induction false} RoundsApart(c: nat, bits: nat)
    requires Decisive(c, Pow2(bits))
    ensures Rounded(c * Pow2(bits), -10) == TIE_RESULT + 1
    ensures Fold(c, -10, bits) == (c / 10, -9)
    ensures Rounded(c / 10 * Pow2(bits), -9) == TIE_RESULT
  {
    hide Pow2;
    assert Pow10(10) == 10_000_000_000 by { TenTwenty(); }
    assert Pow10(9) == 1_000_000_000;
  }

  /** From nine bits on some number is converted wrongly. */
  lemma {:induction false} InexactFromNine(bits: nat) returns (t: seq<Byte>)
    requires 9 <= bits <= 30
    ensures IsNumber(t) && |t| <= 31
    ensures Fixed(t, bits) == TIE_RESULT + 1 && Computed(t, bits) == TIE_RESULT
  {
    hide Pow2, Pow10, Numeral, Rounded, Fold, ExactValue, IsNumber;
    var c := WITNESSES[bits - 9];
    WitnessesDecide(bits);
    t := Text(c, 10);
    TextIs(c, 10);
    Eighteen();
    NumeralLength(c, 18);
    Short(10);
    RoundsApart(c, bits);
    assert Trim(c) == (c, 0);
  }

  lemma Short(x: nat)
    requires x < 100
    ensures |Numeral(x)| <= 2
  {
    assert Pow10(2) == 100;
    NumeralLength(x, 2);
  }

  /** json_number_to_fixed is exact on every number the tokenizer can report if and only if it is asked
      for at most eight fraction bits. */
  lemma {:induction false} ExactIffEight(bits: nat)
    requires bits <= 30
    ensures (forall t: seq<Byte> :: IsNumber(t) && |t| <= 31 ==> Computed(t, bits) == Fixed(t, bits)) <==> bits <= 8
  {
    hide Computed, Fixed, IsNumber;
    if bits <= 8 {
      forall t: seq<Byte> ensures Computed(t, bits) == Fixed(t, bits) {
        ExactToEight(t, bits);
      }
    } else {
      var t := InexactFromNine(bits);
      assert IsNumber(t) && Computed(t, bits) != Fixed(t, bits);
    }
  }
}
