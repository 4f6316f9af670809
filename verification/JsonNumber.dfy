/** The grammar of JSON numbers: the tokenizer's automaton and the converter's parser agree on it. */
module JsonNumber {
  import opened Prelude
  import opened Json

  // ---- the grammar, section 6 of RFC 8259 ----------------------------------------------------

  /** Number of digits the text starts with. */
  function Digits(t: seq<Byte>): (n: nat)
    ensures n <= |t| && (forall i :: 0 <= i < n ==> IsDigit(t[i])) && (n < |t| ==> !IsDigit(t[n]))
  {
    if t == [] || !IsDigit(t[0]) then 0 else 1 + Digits(t[1..])
  }

  function Unsigned(t: seq<Byte>): seq<Byte> {
    if t != [] && IsSign(t[0]) then t[1..] else t
  }

  /** What may follow the letter e: an optional sign and digits to the end. */
  predicate ExpOk(t: seq<Byte>) {
    Unsigned(t) != [] && Digits(Unsigned(t)) == |Unsigned(t)|
  }

  predicate AfterFrac(t: seq<Byte>) {
    t == [] || (IsE(t[0]) && ExpOk(t[1..]))
  }

  /** What may follow the point. */
  predicate FracOk(t: seq<Byte>) {
    Digits(t) > 0 && AfterFrac(t[Digits(t)..])
  }

  predicate AfterInt(t: seq<Byte>) {
    t == [] || (t[0] == '.' as int && FracOk(t[1..])) || (IsE(t[0]) && ExpOk(t[1..]))
  }

  function Magnitude(t: seq<Byte>): seq<Byte> {
    if t != [] && t[0] == '-' as int then t[1..] else t
  }

  /** An integer part without a spare leading zero, then an optional fraction and exponent. */
  predicate IsNumber(t: seq<Byte>) {
    var u := Magnitude(t);
    Digits(u) > 0 && (u[0] == '0' as int ==> Digits(u) == 1) && AfterInt(u[Digits(u)..])
  }

  // ---- the tokenizer's automaton -------------------------------------------------------------

  /** The state after the text, when every byte of it is taken. */
  function Walk(sub: nat, t: seq<Byte>): Option<nat>
    decreases |t|
  {
    if t == [] then Some(sub)
    else if NumberNext(sub, t[0]).Goes? then Walk(NumberNext(sub, t[0]).sub, t[1..])
    else None
  }

  function FirstSub(c: Byte): Option<nat> {
    if c == '-' as int then Some(0) else if c == '0' as int then Some(1) else if IsDigit(c) then Some(2) else None
  }

  function WalkAll(t: seq<Byte>): Option<nat> {
    if t == [] || FirstSub(t[0]) == None then None else Walk(FirstSub(t[0]).value, t[1..])
  }

  predicate Accepts(sub: nat, t: seq<Byte>) {
    Walk(sub, t).Some? && Terminal(Walk(sub, t).value)
  }

  lemma {:induction false} AcceptsTail(t: seq<Byte>)
    ensures Accepts(7, t) <==> Digits(t) == |t|
  {
    if t != [] && IsDigit(t[0]) { AcceptsTail(t[1..]); }
  }

  lemma {:induction false} AcceptsSigned(t: seq<Byte>)
    ensures Accepts(6, t) <==> t != [] && Digits(t) == |t|
  {
    if t != [] { AcceptsTail(t[1..]); }
  }

  lemma {:induction false} AcceptsExp(t: seq<Byte>)
    ensures Accepts(5, t) <==> ExpOk(t)
  {
    if t != [] {
      AcceptsTail(t[1..]);
      AcceptsSigned(t[1..]);
    }
  }

  lemma {:induction false} AcceptsFracDigits(t: seq<Byte>)
    ensures Accepts(4, t) <==> AfterFrac(t[Digits(t)..])
  {
    if t != [] {
      if IsDigit(t[0]) {
        AcceptsFracDigits(t[1..]);
        assert t[Digits(t)..] == t[1..][Digits(t[1..])..];
      } else {
        assert t[0..] == t;
        AcceptsExp(t[1..]);
      }
    }
  }

  lemma {:induction false} AcceptsFrac(t: seq<Byte>)
    ensures Accepts(3, t) <==> FracOk(t)
  {
    if t != [] && IsDigit(t[0]) {
      AcceptsFracDigits(t[1..]);
      assert t[Digits(t)..] == t[1..][Digits(t[1..])..];
    }
  }

  lemma {:induction false} AcceptsZero(t: seq<Byte>)
    ensures Accepts(1, t) <==> AfterInt(t)
  {
    if t != [] {
      AcceptsFrac(t[1..]);
      AcceptsExp(t[1..]);
    }
  }

  lemma {:induction false} AcceptsInt(t: seq<Byte>)
    ensures Accepts(2, t) <==> AfterInt(t[Digits(t)..])
  {
    if t != [] {
      if IsDigit(t[0]) {
        AcceptsInt(t[1..]);
        assert t[Digits(t)..] == t[1..][Digits(t[1..])..];
      } else {
        assert t[0..] == t;
        AcceptsFrac(t[1..]);
        AcceptsExp(t[1..]);
      }
    }
  }

  lemma {:induction false} AcceptsMagnitude(u: seq<Byte>)
    requires u != [] && IsDigit(u[0])
    ensures (if u[0] == '0' as int then Accepts(1, u[1..]) else Accepts(2, u[1..]))
            <==> (u[0] == '0' as int ==> Digits(u) == 1) && AfterInt(u[Digits(u)..])
  {
    hide AfterInt, Accepts;
    AcceptsZero(u[1..]);
    AcceptsInt(u[1..]);
    assert u[Digits(u)..] == u[1..][Digits(u[1..])..];
    if u[0] == '0' as int && Digits(u) > 1 {
      assert IsDigit(u[1..][0]);
      NoDigit(u[1..]);
    } else if u[0] == '0' as int {
      assert u[1..][0..] == u[1..];
    }
  }

  lemma {:induction false} NoDigit(t: seq<Byte>)
    requires t != [] && IsDigit(t[0])
    ensures !AfterInt(t)
  {
  }

  /** The texts the automaton accepts are exactly the numbers of the grammar. */
  lemma {:induction false} AutomatonIsGrammar(t: seq<Byte>)
    ensures WalkAll(t).Some? && Terminal(WalkAll(t).value) <==> IsNumber(t)
  {
    hide AfterInt, Walk;
    if t != [] {
      var u := Magnitude(t);
      if t[0] == '-' as int {
        WalkMinus(u);
        if u != [] && IsDigit(u[0]) { AcceptsMagnitude(u); }
      } else if IsDigit(t[0]) {
        AcceptsMagnitude(t);
      }
    }
  }

  lemma {:induction false} WalkMinus(u: seq<Byte>)
    ensures Accepts(0, u) <==>
            u != [] && IsDigit(u[0]) && (if u[0] == '0' as int then Accepts(1, u[1..]) else Accepts(2, u[1..]))
  {
  }

  // ---- what the tokenizer emits --------------------------------------------------------------

  lemma {:induction false} WalkOne(sub: nat, t: seq<Byte>, c: Byte)
    requires Walk(sub, t).Some? && NumberNext(Walk(sub, t).value, c).Goes?
    ensures Walk(sub, t + [c]) == Some(NumberNext(Walk(sub, t).value, c).sub)
    decreases |t|
  {
    hide NumberNext;
    if t == [] {
      assert [c][1..] == [];
    } else {
      WalkOne(NumberNext(sub, t[0]).sub, t[1..], c);
      assert (t + [c])[1..] == t[1..] + [c];
    }
  }

  /** Inside a number, the text so far is what brought the automaton where it is. */
  ghost predicate Collected(j: Js) {
    j.st.Number? ==> 1 <= |j.num| <= NUM_MAX && WalkAll(j.num) == Some(j.sub)
  }

  lemma {:induction false} StepCollects(j: Js, c: Byte)
    requires Ok(j) && Collected(j)
    ensures Collected(Step(j, c))
  {
    hide Emit, EmitBytes, FlushPending, EmitCodepoint, Utf8;
    if j.st.Number? { NumberCollects(j, c); }
    else if !InString(j.st) && !j.st.Done? && !j.st.Error? && !j.st.Literal? { BoundaryCollects(j, c); }
  }

  lemma {:induction false} BoundaryCollects(j: Js, c: Byte)
    requires Ok(j) && !j.error && !j.st.Number?
    ensures Collected(Boundary(j, c))
  {
    hide Emit;
    assert [c][1..] == [];
    assert FirstSub(c).Some? ==> WalkAll([c]) == Some(FirstSub(c).value);
  }

  lemma {:induction false} NumberCollects(j: Js, c: Byte)
    requires Ok(j) && j.st.Number? && Collected(j)
    ensures Collected(NumberByte(j, c))
  {
    hide Emit, NumberNext, Walk, Boundary, Terminal;
    match NumberNext(j.sub, c)
    case Bad =>
    case Goes(sub) =>
      WalkOne(FirstSub(j.num[0]).value, j.num[1..], c);
      assert (j.num + [c])[1..] == j.num[1..] + [c];
    case Ends =>
      var e := EndNumber(j);
      if !e.error && !e.st.Done? { BoundaryCollects(e, c); }
  }

  lemma {:induction false} RunCollects(j: Js, s: seq<Byte>)
    requires Ok(j) && Collected(j) && NumbersOk(j.out)
    ensures Collected(Run(j, s)) && NumbersOk(Run(j, s).out)
    decreases |s|
  {
    hide Step, Collected, NumbersOk;
    if s != [] {
      StepCollects(j, s[0]);
      StepNumbers(j, s[0]);
      RunCollects(Step(j, s[0]), s[1..]);
    }
  }

  // ---- the history of events -----------------------------------------------------------------

  /** Every number told so far is one of the grammar, and short. */
  ghost predicate NumbersOk(out: seq<Event>) {
    forall e :: e in out && e.kind.NumberEv? ==> IsNumber(e.data) && 1 <= |e.data| <= NUM_MAX
  }

  /** r told more than j, but no further number. */
  ghost predicate Quiet(j: Js, r: Js) {
    forall e :: e in r.out && e.kind.NumberEv? ==> e in j.out
  }

  lemma {:induction false} EmitQuiet(j: Js, kind: EventKind, data: seq<Byte>, final: bool)
    requires !kind.NumberEv?
    ensures Quiet(j, Emit(j, kind, data, final))
  {
  }

  lemma {:induction false} BytesQuiet(j: Js, b: seq<Byte>)
    requires Ok(j)
    ensures Quiet(j, EmitBytes(j, b))
  {
    hide Emit;
    EmitQuiet(j, StringEv, b, false);
  }

  lemma {:induction false} FlushQuiet(j: Js)
    requires Ok(j)
    ensures Quiet(j, FlushPending(j))
  {
    hide EmitBytes, Utf8;
    if j.pending != 0 { BytesQuiet(j.(pending := 0), Utf8(0xFFFD)); BytesQuiet(j, Utf8(0xFFFD)); }
  }

  lemma {:induction false} UescapeQuiet(j: Js)
    requires Ok(j)
    ensures Quiet(j, EndUescape(j))
  {
    hide EmitBytes, Utf8, FlushPending;
    FlushQuiet(j);
    var cp := j.uescape;
    if j.pending != 0 && Low(cp) {
      BytesQuiet(j.(pending := 0), Utf8(Pair(j.pending, cp)));
    } else if !High(cp) {
      BytesQuiet(FlushPending(j), Utf8(if Low(cp) then 0xFFFD else cp));
    }
  }

  lemma {:induction false} TextQuiet(j: Js, c: Byte)
    requires Ok(j) && InString(j.st)
    ensures Quiet(j, Step(j, c))
  {
    hide Emit, EmitBytes, EndUescape, FlushPending, HexValue, Unescaped;
    FlushQuiet(j);
    match j.st
    case String =>
      var f := if c == '\\' as int then j else FlushPending(j);
      BytesQuiet(f, [c]);
      CloseQuiet(f);
    case Escape =>
      if Unescaped(c).Some? { BytesQuiet(FlushPending(j), [Unescaped(c).value]); }
    case UHex =>
      if HexValue(c).Some? { UescapeQuiet(j.(uescape := (j.uescape * 16 + HexValue(c).value) % 0x1_0000, sub := (j.sub + 1) % 256)); }
  }

  lemma {:induction false} CloseQuiet(j: Js)
    requires Ok(j) && j.st.String?
    ensures Quiet(j, CloseString(j))
  {
    hide Emit;
    if j.inKey {
      EmitQuiet(j.(key := j.key[|j.stack| - 1 := j.keybuf], inKey := false), KeyEv, j.keybuf, true);
    } else {
      EmitQuiet(j, StringEv, [], true);
    }
  }

  lemma {:induction false} BoundaryQuiet(j: Js, c: Byte)
    requires Ok(j) && !j.error
    ensures Quiet(j, Boundary(j, c))
  {
    hide Push, Pop;
    StackQuiet(j, Obj);
    StackQuiet(j, Arr);
  }

  lemma {:induction false} StackQuiet(j: Js, kind: Kind)
    requires Ok(j) && !j.error
    ensures Quiet(j, Push(j, kind)) && Quiet(j, Pop(j, kind))
  {
    hide Emit;
    EmitQuiet(j, if kind.Obj? then ObjStart else ArrStart, [], true);
    var n := |j.stack|;
    if n > 0 {
      var p := j.(stack := j.stack[..n - 1], index := j.index[..n - 1], key := j.key[..n - 1], st := Value);
      EmitQuiet(p, if kind.Obj? then ObjEnd else ArrEnd, [], true);
    }
  }

  lemma {:induction false} EndNumbers(j: Js)
    requires Ok(j) && j.st.Number? && Collected(j) && NumbersOk(j.out)
    ensures NumbersOk(EndNumber(j).out)
  {
    hide IsNumber, WalkAll;
    AutomatonIsGrammar(j.num);
  }

  lemma {:induction false} StepNumbers(j: Js, c: Byte)
    requires Ok(j) && Collected(j) && NumbersOk(j.out)
    ensures NumbersOk(Step(j, c).out)
  {
    hide IsNumber, WalkAll, Emit, EmitBytes, EndNumber, Boundary, NumberNext, StringByte, EscapeByte, HexByte;
    if InString(j.st) {
      TextQuiet(j, c);
    } else if j.st.Number? {
      EndNumbers(j);
      var e := EndNumber(j);
      if !e.error { BoundaryQuiet(e, c); }
    } else if j.st.Literal? {
      EmitQuiet(j.(matched := j.matched + 1), TrueEv, [], true);
      EmitQuiet(j.(matched := j.matched + 1), FalseEv, [], true);
      EmitQuiet(j.(matched := j.matched + 1), NullEv, [], true);
    } else if !j.error {
      BoundaryQuiet(j, c);
    }
  }

  /** Every number the tokenizer tells, while a text is fed and when it ends, is the text of a number
      of the grammar of at most 31 bytes. */
  lemma {:induction false} NumbersReported(s: seq<Byte>)
    ensures NumbersOk(Run(Start(), s).out) && NumbersOk(Finish(Run(Start(), s)).0.out)
  {
    hide IsNumber, WalkAll, EndNumber;
    RunCollects(Start(), s);
    var j := Run(Start(), s);
    if j.st.Number? { EndNumbers(j); }
  }
}
