/** What the path scanner lets through: every number it tells is spelled as one, and no stray byte is
    passed over. */
module PathRules {
  import opened Prelude
  import opened Path
  import opened PathNumber

  /** Digits before and behind a point and, behind a digit, an exponent whose own digits may be missing so
      far. A sign or a point may stand alone: the scanner takes it, and it means 0. */
  predicate Spell(n: NumText) {
    && AllDigits(n.whole) && AllDigits(n.frac) && (!n.dot ==> n.frac == [])
    && (n.exp.Some? ==> IsE(n.exp.value.e) && AllDigits(n.exp.value.digits) && (if n.dot then n.frac != [] else n.whole != []))
  }

  predicate Whole(n: NumText) { Spell(n) && (n.exp.Some? ==> n.exp.value.digits != []) }

  /** A number's text: one the buffer may have cut short, or one spelled in full. */
  ghost predicate Spelled(t: seq<Byte>) {
    |t| >= NUM_BYTES || exists n :: Whole(n) && Text(n) == t
  }

  /** The pending number is n so far. */
  predicate Pending(s: Scan, n: NumText) {
    && Spell(n) && s.num == Text(n) && s.hasDot == n.dot && s.hasExp == n.exp.Some?
    && s.prevExp == (n.exp.Some? && n.exp.value.digits != [])
  }

  ghost predicate NumberOk(s: Scan) {
    s.inNum && |s.num| < NUM_BYTES ==> exists n :: Pending(s, n)
  }

  function Bare(sign: Sign, whole: seq<Byte>, dot: bool): NumText { NumText(sign, whole, dot, [], None) }

  lemma {:induction false} Begins(s: Scan, c: Byte)
    requires IsDigit(c) || c == '.' as int || IsSign(c)
    ensures NumberOk(NumberBegin(s, c))
  {
    var n := if IsDigit(c) then Bare(NoSign, [c], false)
             else if c == '.' as int then Bare(NoSign, [], true)
             else Bare(if c == '-' as int then Minus else Plus, [], false);
    assert Text(n) == [c];
    assert Pending(NumberBegin(s, c), n);
  }

  /** The number with one more byte. */
  function Longer(n: NumText, c: Byte): NumText {
    if n.exp.Some? then
      var x := n.exp.value;
      if IsSign(c) then n.(exp := Some(x.(sign := if c == '-' as int then Minus else Plus)))
      else n.(exp := Some(x.(digits := x.digits + [c])))
    else if IsE(c) then n.(exp := Some(ExpText(c, NoSign, [])))
    else if c == '.' as int then n.(dot := true)
    else if n.dot then n.(frac := n.frac + [c])
    else n.(whole := n.whole + [c])
  }

  lemma {:induction false} LongerText(n: NumText, c: Byte)
    requires Spell(n) && (n.dot ==> c != '.' as int) && (n.exp == None && !IsE(c) && c != '.' as int ==> IsDigit(c))
    requires n.exp.Some? ==> IsDigit(c) || (IsSign(c) && n.exp.value.sign == NoSign && n.exp.value.digits == [])
    ensures Text(Longer(n, c)) == Text(n) + [c]
  {
  }

  /** How a number's text ends. */
  lemma {:induction false} LastByte(n: NumText)
    requires Spell(n) && Text(n) != []
    ensures var last := Text(n)[|Text(n)| - 1];
            && (n.exp == None && IsDigit(last) ==> if n.dot then n.frac != [] else n.whole != [])
            && (n.exp.Some? && n.exp.value.digits == [] && IsE(last) ==> n.exp.value.sign == NoSign)
  {
    var t := Text(n);
    if n.exp.Some? && n.exp.value.digits == [] && n.exp.value.sign != NoSign {
      assert t[|t| - 1] == SignText(n.exp.value.sign)[0];
    }
    if n.exp == None && n.dot && n.frac == [] { assert t[|t| - 1] == '.' as int; }
    if n.exp == None && !n.dot && n.whole == [] { assert t == SignText(n.sign); }
  }

  lemma {:induction false} ContinuesOk(s: Scan, c: Byte, n: NumText)
    requires Pending(s, n) && s.num != [] && Continued(s, c).Some? && |s.num| < NUM_BYTES
    ensures Pending(Continued(s, c).value, Longer(n, c))
  {
    hide Text, Longer, Spell, Continued;
    LastByte(n);
    LongerIs(s, c, n);
    LongerText(n, c);
    LongerShape(n, c);
  }

  lemma LongerShape(n: NumText, c: Byte)
    requires Spell(n) && (if n.exp.Some? then IsDigit(c) || IsSign(c) else IsDigit(c) || c == '.' as int || IsE(c))
    requires n.exp == None && IsE(c) ==> if n.dot then n.frac != [] else n.whole != []
    ensures var m := Longer(n, c);
            && Spell(m) && m.dot == (n.dot || (n.exp == None && c == '.' as int)) && m.exp.Some? == (n.exp.Some? || IsE(c))
            && (m.exp.Some? && m.exp.value.digits != [] <==> n.exp.Some? && (n.exp.value.digits != [] || IsDigit(c)))
  {
  }

  lemma LongerIs(s: Scan, c: Byte, n: NumText)
    requires Spell(n) && s.hasDot == n.dot && s.hasExp == n.exp.Some? && s.prevExp == (n.exp.Some? && n.exp.value.digits != [])
    requires Continued(s, c).Some? && |s.num| < NUM_BYTES
    ensures var t := Continued(s, c).value;
            && t.num == s.num + [c] && t.hasDot == (n.dot || (n.exp == None && c == '.' as int))
            && t.hasExp == (n.exp.Some? || IsE(c))
            && (t.prevExp <==> n.exp.Some? && (n.exp.value.digits != [] || IsDigit(c)))
    ensures !n.exp.Some? ==> IsDigit(c) || (c == '.' as int && !n.dot) || (IsE(c) && s.num != [] && IsDigit(s.num[|s.num| - 1]))
    ensures n.exp.Some? ==> IsDigit(c) || (IsSign(c) && n.exp.value.digits == [] && s.num != [] && IsE(s.num[|s.num| - 1]))
  {
  }

  lemma {:induction false} ContinuedOk(s: Scan, c: Byte)
    requires NumberOk(s) && s.inNum && s.num != [] && Continued(s, c).Some?
    ensures NumberOk(Continued(s, c).value) && Continued(s, c).value.num != []
  {
    var t := Continued(s, c).value;
    StaysLong(s, c);
    if |s.num| < NUM_BYTES {
      var n :| Pending(s, n);
      hide Continued, Pending, Longer;
      ContinuesOk(s, c, n);
    }
  }

  lemma StaysLong(s: Scan, c: Byte)
    requires Continued(s, c).Some?
    ensures |Continued(s, c).value.num| >= |s.num| && (s.num != [] ==> Continued(s, c).value.num != [])
  {
  }

  /** Each number told is the reading of a spelled text. */
  ghost predicate Told(conv: Conv, toks: seq<Tok>) {
    forall k :: 0 <= k < |toks| && toks[k].Arg? ==> FromText(conv, toks[k].num)
  }

  ghost predicate FromText(conv: Conv, v: Num) {
    exists t :: Spelled(t) && v == Parse(conv, t)
  }

  lemma {:induction false} DoneTells(conv: Conv, s: Scan)
    requires NumberOk(s)
    ensures var (d, toks) := NumberDone(conv, s); Told(conv, toks) && !d.inNum
  {
    hide Parse;
    if s.inNum && !(s.hasExp && !s.prevExp) {
      if |s.num| < NUM_BYTES {
        var n :| Pending(s, n);
        assert Whole(n) && Text(n) == s.num;
      }
      assert Spelled(s.num);
      hide Spelled, Pending;
      assert FromText(conv, Parse(conv, s.num));
    }
  }

  ghost predicate Held(s: Scan) { NumberOk(s) && (s.inNum ==> s.num != []) }

  lemma {:induction false} FreshTells(conv: Conv, s: Scan, c: Byte, polygon: bool)
    requires !s.inNum
    ensures var (f, toks) := Fresh(conv, s, c, polygon); Held(f) && Told(conv, toks)
  {
    if !IsSeparator(c) && (IsDigit(c) || c == '.' as int || IsSign(c)) {
      Begins(s, c);
      DoneTells(conv, NumberBegin(s, c));
    }
    hide NumberDone, NumberOk, FromText;
  }

  lemma {:induction false} StepTells(conv: Conv, s: Scan, c: Byte, polygon: bool)
    requires Held(s)
    ensures var (t, toks) := Step(conv, s, c, polygon); Held(t) && Told(conv, toks)
  {
    hide NumberDone, Fresh, Continued, FromText;
    if s.inNum {
      if Continued(s, c).Some? {
        ContinuedOk(s, c);
        StaysIn(s, c);
      } else {
        DoneTells(conv, s);
        FreshTells(conv, NumberDone(conv, s).0, c, polygon);
      }
    } else {
      FreshTells(conv, s, c, polygon);
    }
  }

  lemma StaysIn(s: Scan, c: Byte)
    requires s.inNum && Continued(s, c).Some?
    ensures Continued(s, c).value.inNum
  {
  }

  /** Over whole texts: every number told is the reading of a text spelled as a number. */
  lemma {:induction false} NumbersSpelled(conv: Conv, s: Scan, text: seq<Byte>, polygon: bool)
    requires Held(s)
    ensures var (t, toks) := Run(conv, s, text, polygon); Held(t) && Told(conv, toks) && Told(conv, NumberDone(conv, t).1)
    decreases |text|
  {
    hide Step, NumberDone, Held, FromText;
    if text != [] {
      StepTells(conv, s, text[0], polygon);
      NumbersSpelled(conv, Step(conv, s, text[0], polygon).0, text[1..], polygon);
    }
    HeldDone(conv, Run(conv, s, text, polygon).0);
  }

  lemma HeldDone(conv: Conv, t: Scan)
    requires Held(t)
    ensures Told(conv, NumberDone(conv, t).1)
  {
    DoneTells(conv, t);
  }

  /** A byte that belongs nowhere is an error: none is passed over. Points files know no letters at all. */
  lemma StrayRefused(conv: Conv, s: Scan, c: Byte, polygon: bool)
    requires !s.error && !(c as char in " ,\t\n\r" || c == 11 || c == 12) && !('0' as int <= c <= '9' as int)
    requires c as char !in "+-.eE" && (polygon || c as char !in "MmLlTtHhVvCcSsQqAaZz")
    ensures Step(conv, s, c, polygon).0.error
  {
    DoneKeeps(conv, s);
    hide NumberDone;
  }

  lemma DoneKeeps(conv: Conv, s: Scan)
    ensures s.error ==> NumberDone(conv, s).0.error
  {
  }

  /** An e is only ever part of a number. */
  lemma LoneExponent(conv: Conv, s: Scan, c: Byte, polygon: bool)
    requires !s.error && !s.inNum && (c == 'e' as int || c == 'E' as int)
    ensures Step(conv, s, c, polygon).0.error
  {
  }

  /** At the end, a last command with some of its arguments and not all is refused, unless it is a point of
      a points file; one with none is not. */
  lemma {:induction false} UnfinishedRefused(conv: Conv, s: Scan, gs: seq<Group>, polygon: bool)
    requires Shaped(conv, s, gs) && !s.error && !NumberDone(conv, s).0.error
    ensures var (d, toks) := FinishScan(conv, s, polygon);
            var g := GrowAll(gs, toks);
            d.error <==> !polygon && g != [] && 0 < |g[|g| - 1].nums| < Nargs(g[|g| - 1].cmd)
  {
    NumberDoneShaped(conv, s, gs);
    hide NumberDone, GrowAll, Parse;
  }
}
