/** What a JSON text means: a value, written out with any whitespace and any escapes, is told as that
    value's own events, each with the containers it lies in, its place among its siblings and its key. */
module JsonValue {
  import opened Prelude
  import opened Json
  import opened JsonNumber
  import opened JsonText
  import JsonStream

  // ---- values and how they are written -------------------------------------------------------

  /** One character of a string as written: itself, one of the eight simple escapes, four hex digits, or
      eight that make a surrogate pair. */
  datatype Chr = Plain(b: Byte) | Simple(i: nat) | Hex(d: seq<Byte>) | HexPair(d: seq<Byte>, e: seq<Byte>)

  datatype Constant = True | False | Null

  datatype Doc =
    | Lit(w: Constant)
    | Num(t: seq<Byte>)
    | Str(cs: seq<Chr>)
    | List(gap: seq<Byte>, items: seq<Item>)
    | Map(gap: seq<Byte>, members: seq<Member>)

  /** An element with the whitespace round it. */
  datatype Item = Item(w0: seq<Byte>, v: Doc, w1: seq<Byte>)

  datatype Member = Member(w0: seq<Byte>, key: seq<Chr>, w1: seq<Byte>, w2: seq<Byte>, v: Doc, w3: seq<Byte>)

  const ESCAPES := "\"\\/bfnrt"
  const ESCAPED: seq<Byte> := [34, 92, 47, 8, 12, 10, 13, 9]

  function ChrText(c: Chr): seq<Byte> {
    match c
    case Plain(b) => [b]
    case Simple(i) => ['\\' as int] + if i < |ESCAPES| then [ESCAPES[i] as int] else []
    case Hex(d) => UEscape(d)
    case HexPair(d, e) => UEscape(d) + UEscape(e)
  }

  function ChrsText(cs: seq<Chr>): seq<Byte> {
    if cs == [] then [] else ChrText(cs[0]) + ChrsText(cs[1..])
  }

  function Quoted(cs: seq<Chr>): seq<Byte> { ['"' as int] + (ChrsText(cs) + ['"' as int]) }

  function LitText(w: Constant): seq<Byte> {
    match w
    case True => ['t' as int, 'r' as int, 'u' as int, 'e' as int]
    case False => ['f' as int, 'a' as int, 'l' as int, 's' as int, 'e' as int]
    case Null => ['n' as int, 'u' as int, 'l' as int, 'l' as int]
  }

  function Text(d: Doc): seq<Byte>
    decreases d, 1, 0
  {
    match d
    case Lit(w) => LitText(w)
    case Num(t) => t
    case Str(cs) => Quoted(cs)
    case List(gap, items) => ['[' as int] + (ItemsText(d, |items|) + (if items == [] then gap else []) + [']' as int])
    case Map(gap, members) => ['{' as int] + (MembersText(d, |members|) + (if members == [] then gap else []) + ['}' as int])
  }

  function Comma(k: nat): seq<Byte> { if k > 0 then [',' as int] else [] }

  /** The first k elements, with commas between. */
  function ItemsText(d: Doc, k: nat): seq<Byte>
    requires d.List? && k <= |d.items|
    decreases d, 0, k
  {
    if k == 0 then []
    else
      var it := d.items[k - 1];
      ItemsText(d, k - 1) + (Comma(k - 1) + (it.w0 + (Text(it.v) + it.w1)))
  }

  function MembersText(d: Doc, k: nat): seq<Byte>
    requires d.Map? && k <= |d.members|
    decreases d, 0, k
  {
    if k == 0 then []
    else
      var m := d.members[k - 1];
      MembersText(d, k - 1) + (Comma(k - 1) + (m.w0 + (Quoted(m.key) + (m.w1 + ([':' as int] + (m.w2 + (Text(m.v) + m.w3)))))))
  }

  // ---- what may be written -------------------------------------------------------------------

  predicate Space(g: seq<Byte>) { forall i :: 0 <= i < |g| ==> g[i] == 32 || g[i] == 9 || g[i] == 10 || g[i] == 13 }

  predicate ChrOk(c: Chr) {
    match c
    case Plain(b) => b >= 32 && b != '"' as int && b != '\\' as int
    case Simple(i) => i < 8
    case Hex(d) => IsHex4(d) && !(0xD800 <= Hex4(d) < 0xE000)
    case HexPair(d, e) => IsHex4(d) && IsHex4(e) && 0xD800 <= Hex4(d) < 0xDC00 && 0xDC00 <= Hex4(e) < 0xE000
  }

  predicate ChrsOk(cs: seq<Chr>) { forall i :: 0 <= i < |cs| ==> ChrOk(cs[i]) }

  predicate DocOk(d: Doc) {
    match d
    case Lit(_) => true
    case Num(t) => IsNumber(t) && |t| <= NUM_MAX
    case Str(cs) => ChrsOk(cs)
    case List(gap, items) => Space(gap) && forall i :: 0 <= i < |items| ==> Space(items[i].w0) && DocOk(items[i].v) && Space(items[i].w1)
    case Map(gap, members) =>
      Space(gap)
      && forall i :: 0 <= i < |members| ==>
           && Space(members[i].w0) && ChrsOk(members[i].key) && Space(members[i].w1) && Space(members[i].w2)
           && DocOk(members[i].v) && Space(members[i].w3)
  }

  /** No more than n containers one in the other. */
  predicate Shallow(d: Doc, n: int) {
    match d
    case List(_, items) => n > 0 && forall i :: 0 <= i < |items| ==> Shallow(items[i].v, n - 1)
    case Map(_, members) => n > 0 && forall i :: 0 <= i < |members| ==> Shallow(members[i].v, n - 1)
    case _ => true
  }

  // ---- what it means -------------------------------------------------------------------------

  /** The open containers, the place in each, and the key in each. */
  datatype Ctx = Ctx(stack: seq<Kind>, index: seq<nat>, key: seq<seq<Byte>>)

  function Tell(kind: EventKind, data: seq<Byte>, final: bool, c: Ctx): Event { Event(kind, data, final, c.stack, c.index, c.key) }

  function Inside(c: Ctx, kind: Kind, i: nat, key: seq<Byte>): Ctx {
    Ctx(c.stack + [kind], c.index + [i % 0x1_0000], c.key + [key])
  }

  function ChrBytes(c: Chr): seq<Byte>
    requires ChrOk(c)
  {
    match c
    case Plain(b) => [b]
    case Simple(i) => [ESCAPED[i]]
    case Hex(d) => Utf8(Hex4(d))
    case HexPair(d, e) => Utf8(0x1_0000 + (Hex4(d) - 0xD800) * 0x400 + (Hex4(e) - 0xDC00))
  }

  function StrBytes(cs: seq<Chr>): seq<Byte>
    requires ChrsOk(cs)
  {
    if cs == [] then [] else ChrBytes(cs[0]) + StrBytes(cs[1..])
  }

  function Cut24(b: seq<Byte>): seq<Byte> { if |b| > KEY_MAX then b[..KEY_MAX] else b }

  /** A key as the consumer sees it: cut to 24 bytes. */
  function KeyBytes(cs: seq<Chr>): seq<Byte>
    requires ChrsOk(cs)
  {
    Cut24(StrBytes(cs))
  }

  /** A string is told byte by byte and then closed. */
  function StrEvents(b: seq<Byte>, c: Ctx): seq<Event> {
    seq(|b|, i requires 0 <= i < |b| => Tell(StringEv, [b[i]], false, c))
  }

  function LitKind(w: Constant): EventKind { match w case True => TrueEv case False => FalseEv case Null => NullEv }

  function Events(d: Doc, c: Ctx): seq<Event>
    requires DocOk(d)
    decreases d, 1, 0
  {
    match d
    case Lit(w) => [Tell(LitKind(w), [], true, c)]
    case Num(t) => [Tell(NumberEv, t, true, c)]
    case Str(cs) => StrEvents(StrBytes(cs), c) + [Tell(StringEv, [], true, c)]
    case List(_, items) => [Tell(ArrStart, [], true, c)] + ItemEvents(d, c, |items|) + [Tell(ArrEnd, [], true, c)]
    case Map(_, members) => [Tell(ObjStart, [], true, c)] + MemberEvents(d, c, |members|) + [Tell(ObjEnd, [], true, c)]
  }

  /** Each element in the list, at its own place. */
  function ItemEvents(d: Doc, c: Ctx, k: nat): seq<Event>
    requires d.List? && DocOk(d) && k <= |d.items|
    decreases d, 0, k
  {
    if k == 0 then [] else ItemEvents(d, c, k - 1) + Events(d.items[k - 1].v, Inside(c, Arr, k - 1, []))
  }

  /** Each key and its value, both at the member's place and under its key. */
  function MemberEvents(d: Doc, c: Ctx, k: nat): seq<Event>
    requires d.Map? && DocOk(d) && k <= |d.members|
    decreases d, 0, k
  {
    if k == 0 then []
    else
      var m := d.members[k - 1];
      var inner := Inside(c, Obj, k - 1, KeyBytes(m.key));
      MemberEvents(d, c, k - 1) + ([Tell(KeyEv, KeyBytes(m.key), true, inner)] + Events(m.v, inner))
  }

  // ---- running over whitespace ---------------------------------------------------------------

  predicate BetweenSt(st: St) { st.Value? || st.ArrFirst? || st.ObjFirst? || st.ObjKey? || st.Colon? || st.After? || st.Done? }

  lemma {:induction false} SpaceRun(j: Js, g: seq<Byte>, rest: seq<Byte>)
    requires Ok(j) && BetweenSt(j.st) && Space(g)
    ensures Run(j, g + rest) == Run(j, rest)
    decreases |g|
  {
    if g == [] {
      assert g + rest == rest;
    } else {
      SpaceStep(j, g[0]);
      hide BetweenSt, Step, Ok;
      RunStep(j, g + rest, g[0], g[1..] + rest);
      SpaceRun(j, g[1..], rest);
    }
  }

  lemma {:induction false} SpaceStep(j: Js, c: Byte)
    requires Ok(j) && BetweenSt(j.st) && (c == 32 || c == 9 || c == 10 || c == 13)
    ensures Step(j, c) == j
  {
  }

  // ---- strings -------------------------------------------------------------------------------

  function Here(j: Js): Ctx { Ctx(j.stack, j.index, j.key) }

  /** Inside a string, nothing waiting. */
  ghost predicate InStr(j: Js) { Ok(j) && j.st.String? && j.pending == 0 && !j.error }

  /** r is j with these bytes of the string taken. */
  ghost predicate Strung(j: Js, r: Js, b: seq<Byte>) {
    && InStr(r) && Here(r) == Here(j) && r.inKey == j.inKey && r.complete == j.complete
    && (if j.inKey then r.keybuf == Cut24(j.keybuf + b) && r.out == j.out else r.out == j.out + StrEvents(b, Here(j)))
  }

  lemma {:induction false} StrungNone(j: Js)
    requires InStr(j)
    ensures Strung(j, j, [])
  {
    assert j.keybuf + [] == j.keybuf && j.out + StrEvents([], Here(j)) == j.out;
  }

  lemma {:induction false} StrungMore(j: Js, r: Js, a: seq<Byte>, t: Js, b: seq<Byte>)
    requires Strung(j, r, a) && Strung(r, t, b)
    ensures Strung(j, t, a + b)
  {
    if j.inKey {
      assert Cut24(Cut24(j.keybuf + a) + b) == Cut24(j.keybuf + (a + b));
    } else {
      assert StrEvents(a + b, Here(j)) == StrEvents(a, Here(j)) + StrEvents(b, Here(j));
      assert j.out + (StrEvents(a, Here(j)) + StrEvents(b, Here(j))) == (j.out + StrEvents(a, Here(j))) + StrEvents(b, Here(j));
    }
  }

  lemma {:induction false} BytesStrung(j: Js, b: seq<Byte>)
    requires InStr(j)
    ensures Strung(j, EmitBytes(j, b), b)
  {
    if !j.inKey {
      assert Cut(Tell(StringEv, b, false, Here(j))) == StrEvents(b, Here(j));
    }
  }

  /** Only scratch registers differ. */
  lemma {:induction false} ScratchStrung(j: Js, k: Js, r: Js, b: seq<Byte>)
    requires InStr(j) && Strung(k, r, b) && k == j.(uescape := k.uescape, sub := k.sub)
    ensures Strung(j, r, b)
  {
    hide StrEvents, Cut24, Ok;
  }

  lemma {:induction false} ChrRun(j: Js, c: Chr, rest: seq<Byte>) returns (r: Js)
    requires InStr(j) && ChrOk(c)
    ensures Strung(j, r, ChrBytes(c)) && Run(j, ChrText(c) + rest) == Run(r, rest)
  {
    match c
    case Plain(b) => r := PlainRun(j, b, rest);
    case Simple(i) => r := SimpleRun(j, i, rest);
    case Hex(d) => r := HexRun(j, d, rest);
    case HexPair(d, e) => r := HexPairRun(j, d, e, rest);
  }

  lemma {:induction false} PlainRun(j: Js, b: Byte, rest: seq<Byte>) returns (r: Js)
    requires InStr(j) && ChrOk(Plain(b))
    ensures Strung(j, r, [b]) && Run(j, [b] + rest) == Run(r, rest)
  {
    hide Strung, EmitBytes, Run;
    r := EmitBytes(j, [b]);
    BytesStrung(j, [b]);
    RunStep(j, [b] + rest, b, rest);
  }

  lemma {:induction false} SimpleRun(j: Js, i: nat, rest: seq<Byte>) returns (r: Js)
    requires InStr(j) && i < 8
    ensures Strung(j, r, [ESCAPED[i]]) && Run(j, ChrText(Simple(i)) + rest) == Run(r, rest)
  {
    var c := ESCAPES[i] as int;
    assert Unescaped(c) == Some(ESCAPED[i]) && c != 'u' as int;
    hide Strung, EmitBytes, Run, Unescaped;
    r := EmitBytes(j, [ESCAPED[i]]);
    BytesStrung(j, [ESCAPED[i]]);
    var s := ChrText(Simple(i)) + rest;
    assert s == ['\\' as int] + ([c] + rest);
    RunStep(j, s, '\\' as int, [c] + rest);
    SimpleStep(j, c);
    RunStep(j.(st := Escape), [c] + rest, c, rest);
  }

  lemma {:induction false} SimpleStep(j: Js, c: Byte)
    requires InStr(j) && Unescaped(c).Some? && c != 'u' as int
    ensures Step(j, '\\' as int) == j.(st := Escape) && Ok(j.(st := Escape))
    ensures Step(j.(st := Escape), c) == EmitBytes(j, [Unescaped(c).value])
  {
  }

  lemma {:induction false} HexRun(j: Js, d: seq<Byte>, rest: seq<Byte>) returns (r: Js)
    requires InStr(j) && ChrOk(Hex(d))
    ensures Strung(j, r, Utf8(Hex4(d))) && Run(j, UEscape(d) + rest) == Run(r, rest)
  {
    hide Strung, EmitBytes, Run, Utf8, UEscape;
    var k := j.(uescape := Hex4(d), sub := 4);
    OneEscape(j, d);
    RunSplit(j, UEscape(d), rest);
    r := EmitBytes(k, Utf8(Hex4(d)));
    HexEnds(j, d);
    BytesStrung(k, Utf8(Hex4(d)));
    ScratchStrung(j, k, r, Utf8(Hex4(d)));
  }

  lemma {:induction false} HexEnds(j: Js, d: seq<Byte>)
    requires InStr(j) && ChrOk(Hex(d))
    ensures var k := j.(uescape := Hex4(d), sub := 4);
            InStr(k) && EndUescape(k.(st := UHex)).(st := String) == EmitBytes(k, Utf8(Hex4(d)))
  {
    hide Utf8, Cut, Hex4;
  }

  lemma {:induction false} HexPairRun(j: Js, d: seq<Byte>, e: seq<Byte>, rest: seq<Byte>) returns (r: Js)
    requires InStr(j) && ChrOk(HexPair(d, e))
    ensures Strung(j, r, ChrBytes(HexPair(d, e))) && Run(j, ChrText(HexPair(d, e)) + rest) == Run(r, rest)
  {
    hide Strung, EmitBytes, Run, Utf8, UEscape;
    var b := ChrBytes(HexPair(d, e));
    var h := j.(uescape := Hex4(d), sub := 4, pending := Hex4(d));
    var k := j.(uescape := Hex4(e), sub := 4);
    PairEnds(j, d, e);
    OneEscape(j, d);
    OneEscape(h, e);
    assert UEscape(d) + UEscape(e) + rest == UEscape(d) + (UEscape(e) + rest);
    RunSplit(j, UEscape(d), UEscape(e) + rest);
    RunSplit(h, UEscape(e), rest);
    r := EmitBytes(k, b);
    BytesStrung(k, b);
    ScratchStrung(j, k, r, b);
  }

  lemma {:induction false} PairEnds(j: Js, d: seq<Byte>, e: seq<Byte>)
    requires InStr(j) && ChrOk(HexPair(d, e))
    ensures var h := j.(uescape := Hex4(d), sub := 4, pending := Hex4(d));
            && Ok(h) && EndUescape(j.(uescape := Hex4(d), sub := 4, st := UHex)).(st := String) == h
            && var k := j.(uescape := Hex4(e), sub := 4);
               InStr(k) && EndUescape(h.(uescape := Hex4(e), sub := 4, st := UHex)).(st := String) == EmitBytes(k, ChrBytes(HexPair(d, e)))
  {
    hide Utf8, Cut, Hex4;
  }

  lemma {:induction false} ChrsRun(j: Js, cs: seq<Chr>, rest: seq<Byte>) returns (r: Js)
    requires InStr(j) && ChrsOk(cs)
    ensures Strung(j, r, StrBytes(cs)) && Run(j, ChrsText(cs) + rest) == Run(r, rest)
    decreases |cs|
  {
    hide Strung, InStr, ChrOk, ChrText, Run, Ok;
    if cs == [] {
      StrungNone(j);
      assert ChrsText(cs) + rest == rest;
      return j;
    }
    var t := ChrRun(j, cs[0], ChrsText(cs[1..]) + rest);
    assert ChrsText(cs) + rest == ChrText(cs[0]) + (ChrsText(cs[1..]) + rest);
    StrungIn(j, t, ChrBytes(cs[0]));
    r := ChrsRun(t, cs[1..], rest);
    StrungMore(j, t, ChrBytes(cs[0]), r, StrBytes(cs[1..]));
  }

  lemma StrungIn(j: Js, r: Js, b: seq<Byte>)
    requires Strung(j, r, b)
    ensures InStr(r)
  {
  }

  // ---- values --------------------------------------------------------------------------------

  /** A value may begin here. */
  ghost predicate Ready(j: Js) { Ok(j) && !j.error && (j.st.Value? || j.st.ArrFirst?) && j.pending == 0 }

  /** r is j with a value behind it that was told as evs. */
  ghost predicate Finished(j: Js, r: Js, evs: seq<Event>) {
    && Ok(r) && !r.error && r.pending == 0 && Here(r) == Here(j) && r.out == j.out + evs
    && (if j.stack == [] then r.st.Done? && r.complete else r.st.After? && r.complete == j.complete)
  }

  /** A byte no number goes on with. */
  predicate Delimits(c: Byte) { !IsDigit(c) && c != '.' as int && !IsE(c) }

  ghost predicate Closed(d: Doc, rest: seq<Byte>) { d.Num? ==> rest != [] && Delimits(rest[0]) }

  /** Only registers that the next value sets again differ. */
  lemma {:induction false} ValueEnds(j: Js, k: Js, e: Event)
    requires Ready(j) && Ok(k) && !k.error && k.pending == 0 && Here(k) == Here(j) && k.complete == j.complete
    requires e.kind.StringEv? ==> e.final && e.data == []
    requires k.out == j.out + [e]
    ensures Finished(j, ValueDone(k), [e])
  {
  }

  lemma {:induction false} LitRun(j: Js, w: Constant, rest: seq<Byte>) returns (r: Js)
    requires Ready(j)
    ensures Finished(j, r, [Tell(LitKind(w), [], true, Here(j))]) && Run(j, LitText(w) + rest) == Run(r, rest)
  {
    var c: Byte := if w.True? then 't' as int else if w.False? then 'f' as int else 'n' as int;
    var n := |LitText(w)|;
    LitStart(j, w, c);
    hide Ready, Run;
    var k := j.(st := Literal, sub := c, matched := 1);
    RunStep(j, LitText(w) + rest, c, LitText(w)[1..] + rest);
    LitMiddle(k, w, 1, rest);
    var l := k.(matched := n - 1);
    RunStep(l, LitText(w)[n - 1..] + rest, LitText(w)[n - 1], rest);
    r := Step(l, LitText(w)[n - 1]);
    LitLast(j, l, w);
  }

  lemma {:induction false} LitStart(j: Js, w: Constant, c: Byte)
    requires Ready(j) && c == LitText(w)[0]
    ensures Step(j, c) == j.(st := Literal, sub := c, matched := 1) && Ok(j.(st := Literal, sub := c, matched := 1))
  {
  }

  lemma {:induction false} LitMiddle(k: Js, w: Constant, m: nat, rest: seq<Byte>)
    requires Ok(k) && k.st.Literal? && k.sub == LitText(w)[0] && k.matched == m && 1 <= m < |LitText(w)|
    ensures var l := k.(matched := |LitText(w)| - 1); Ok(l) && Run(k, LitText(w)[m..] + rest) == Run(l, LitText(w)[|LitText(w)| - 1..] + rest)
    decreases |LitText(w)| - m
  {
    hide Run, LitText, Ok;
    if m < |LitText(w)| - 1 {
      LitStep(k, w, m);
      HeadOff(LitText(w), m, rest);
      RunStep(k, LitText(w)[m..] + rest, LitText(w)[m], LitText(w)[m + 1..] + rest);
      LitMiddle(k.(matched := m + 1), w, m + 1, rest);
    }
  }

  lemma HeadOff(t: seq<Byte>, m: nat, rest: seq<Byte>)
    requires m < |t|
    ensures t[m..] + rest == [t[m]] + (t[m + 1..] + rest)
  {
  }

  lemma {:induction false} LitStep(k: Js, w: Constant, m: nat)
    requires Ok(k) && k.st.Literal? && k.sub == LitText(w)[0] && k.matched == m && 1 <= m < |LitText(w)| - 1
    ensures Step(k, LitText(w)[m]) == k.(matched := m + 1) && Ok(k.(matched := m + 1))
  {
  }

  lemma {:induction false} LitLast(j: Js, l: Js, w: Constant)
    requires Ready(j) && l == j.(st := Literal, sub := LitText(w)[0], matched := |LitText(w)| - 1) && Ok(l)
    ensures Finished(j, Step(l, LitText(w)[|LitText(w)| - 1]), [Tell(LitKind(w), [], true, Here(j))])
  {
    var k := Emit(l.(matched := |LitText(w)|), LitKind(w), [], true).(st := Value);
    ValueEnds(j, k, Tell(LitKind(w), [], true, Here(j)));
  }

  // ---- numbers -------------------------------------------------------------------------------

  /** The tokenizer m bytes into a number. */
  ghost predicate Counting(j: Js, p: Js, t: seq<Byte>, m: nat) {
    && 1 <= m <= |t| <= NUM_MAX && WalkAll(t[..m]).Some?
    && p == j.(st := Number, num := t[..m], sub := WalkAll(t[..m]).value) && Ok(p)
  }

  lemma {:induction false} WalkFront(sub: nat, a: seq<Byte>, b: seq<Byte>)
    requires Walk(sub, a + b).Some?
    ensures Walk(sub, a).Some?
    decreases |a|
  {
    if a != [] {
      assert (a + b)[1..] == a[1..] + b;
      WalkFront(NumberNext(sub, a[0]).sub, a[1..], b);
    }
  }

  lemma {:induction false} WalkGoes(t: seq<Byte>, m: nat)
    requires WalkAll(t).Some? && 1 <= m < |t|
    ensures WalkAll(t[..m]).Some? && WalkAll(t[..m + 1]).Some?
    ensures NumberNext(WalkAll(t[..m]).value, t[m]) == Goes(WalkAll(t[..m + 1]).value)
  {
    hide NumberNext;
    var sub := FirstSub(t[0]).value;
    assert t[1..] == t[1..m] + t[m..] && t[1..] == t[1..m + 1] + t[m + 1..];
    WalkFront(sub, t[1..m], t[m..]);
    WalkFront(sub, t[1..m + 1], t[m + 1..]);
    assert t[..m][1..] == t[1..m] && t[..m + 1][1..] == t[1..m + 1] && t[1..m + 1] == t[1..m] + [t[m]];
    WalkLast(sub, t[1..m], t[m]);
  }

  lemma {:induction false} WalkLast(sub: nat, a: seq<Byte>, c: Byte)
    requires Walk(sub, a + [c]).Some?
    ensures Walk(sub, a).Some? && NumberNext(Walk(sub, a).value, c) == Goes(Walk(sub, a + [c]).value)
    decreases |a|
  {
    if a == [] {
      assert [c][1..] == [];
    } else {
      assert (a + [c])[1..] == a[1..] + [c];
      WalkLast(NumberNext(sub, a[0]).sub, a[1..], c);
    }
  }

  lemma {:induction false} NumberStarts(j: Js, t: seq<Byte>)
    requires Ready(j) && WalkAll(t).Some? && |t| <= NUM_MAX
    ensures t != [] && Counting(j, Step(j, t[0]), t, 1)
  {
    assert t[..1] == [t[0]] && [t[0]][1..] == [];
  }

  lemma {:induction false} NumberGoes(j: Js, p: Js, t: seq<Byte>, m: nat, rest: seq<Byte>) returns (q: Js)
    requires Counting(j, p, t, m) && WalkAll(t).Some?
    ensures Counting(j, q, t, |t|) && Run(p, t[m..] + rest) == Run(q, rest)
    decreases |t| - m
  {
    hide Run, NumberNext, WalkAll;
    if m == |t| {
      assert t[m..] + rest == rest;
      return p;
    }
    WalkGoes(t, m);
    RunStep(p, t[m..] + rest, t[m], t[m + 1..] + rest);
    assert t[..m] + [t[m]] == t[..m + 1];
    q := NumberGoes(j, Step(p, t[m]), t, m + 1, rest);
  }

  lemma {:induction false} NumberEnds(j: Js, p: Js, t: seq<Byte>)
    requires Ready(j) && Counting(j, p, t, |t|) && IsNumber(t)
    ensures Finished(j, EndNumber(p), [Tell(NumberEv, t, true, Here(j))]) && Terminal(p.sub)
  {
    hide WalkAll, IsNumber;
    AutomatonIsGrammar(t);
    assert t[..|t|] == t;
    ValueEnds(j, Emit(p, NumberEv, p.num, true).(st := Value), Tell(NumberEv, t, true, Here(j)));
  }

  lemma {:induction false} NumRun(j: Js, t: seq<Byte>, rest: seq<Byte>) returns (r: Js, p: Js)
    requires Ready(j) && IsNumber(t) && |t| <= NUM_MAX
    ensures Finished(j, r, [Tell(NumberEv, t, true, Here(j))])
    ensures rest != [] && Delimits(rest[0]) ==> Run(j, t + rest) == Run(r, rest)
    ensures Ok(p) && !p.error && p.st.Number? && p.stack == j.stack && p.complete == j.complete && Terminal(p.sub) && r == EndNumber(p)
    ensures Run(j, t) == p
  {
    assert Ok(j);
    hide Run, WalkAll, IsNumber, Ready, Counting, Finished, Ok;
    AutomatonIsGrammar(t);
    NumberStarts(j, t);
    HeadOff(t, 0, rest);
    HeadOff(t, 0, []);
    assert t[0..] == t && t + [] == t;
    RunStep(j, t + rest, t[0], t[1..] + rest);
    p := NumberGoes(j, Step(j, t[0]), t, 1, rest);
    RunStep(j, t, t[0], t[1..]);
    assert t[1..] + [] == t[1..];
    var q := NumberGoes(j, Step(j, t[0]), t, 1, []);
    SameCount(j, p, q, t);
    assert Run(p, []) == p by { RunEmpty(p); }
    NumberEnds(j, p, t);
    r := EndNumber(p);
    if rest != [] && Delimits(rest[0]) {
      TerminalEnds(p.sub, rest[0]);
      JsonStream.Reprocess(p, r, rest);
    }
  }

  lemma RunEmpty(p: Js)
    requires Ok(p)
    ensures Run(p, []) == p
  {
  }

  lemma SameCount(j: Js, p: Js, q: Js, t: seq<Byte>)
    requires Counting(j, p, t, |t|) && Counting(j, q, t, |t|)
    ensures p == q && Ok(p) && p.st.Number? && p.stack == j.stack && p.complete == j.complete && p.error == j.error && !p.error
  {
    hide WalkAll;
  }

  lemma TerminalEnds(sub: nat, c: Byte)
    requires Terminal(sub) && Delimits(c)
    ensures NumberNext(sub, c) == Ends
  {
  }

  // ---- quoted strings ------------------------------------------------------------------------

  lemma {:induction false} StrRun(j: Js, cs: seq<Chr>, rest: seq<Byte>) returns (r: Js)
    requires Ready(j) && ChrsOk(cs)
    ensures Finished(j, r, StrEvents(StrBytes(cs), Here(j)) + [Tell(StringEv, [], true, Here(j))])
    ensures Run(j, Quoted(cs) + rest) == Run(r, rest)
  {
    var k := j.(inKey := false, st := String);
    assert Step(j, '"' as int) == k && InStr(k);
    hide Ready, Run, InStr, Strung, ChrsOk;
    assert Quoted(cs) + rest == ['"' as int] + (ChrsText(cs) + (['"' as int] + rest));
    RunStep(j, Quoted(cs) + rest, '"' as int, ChrsText(cs) + (['"' as int] + rest));
    var t := ChrsRun(k, cs, ['"' as int] + rest);
    StrungIn(k, t, StrBytes(cs));
    r := StringCloses(j, k, t, cs, rest);
  }

  lemma {:induction false} StringCloses(j: Js, k: Js, t: Js, cs: seq<Chr>, rest: seq<Byte>) returns (r: Js)
    requires Ready(j) && k == j.(inKey := false, st := String) && ChrsOk(cs) && Strung(k, t, StrBytes(cs))
    ensures Finished(j, r, StrEvents(StrBytes(cs), Here(j)) + [Tell(StringEv, [], true, Here(j))])
    ensures Run(t, ['"' as int] + rest) == Run(r, rest)
  {
    RunStep(t, ['"' as int] + rest, '"' as int, rest);
    r := Step(t, '"' as int);
    assert Cut(Tell(StringEv, [], true, Here(j))) == [Tell(StringEv, [], true, Here(j))];
    hide StrEvents, Cut;
    assert j.out + StrEvents(StrBytes(cs), Here(j)) + [Tell(StringEv, [], true, Here(j))]
           == j.out + (StrEvents(StrBytes(cs), Here(j)) + [Tell(StringEv, [], true, Here(j))]);
  }

  /** A key: after it the colon is due, and the key is on record. */
  lemma {:induction false} KeyRun(j: Js, cs: seq<Chr>, rest: seq<Byte>) returns (r: Js)
    requires Ok(j) && !j.error && (j.st.ObjFirst? || j.st.ObjKey?) && j.pending == 0 && ChrsOk(cs)
    ensures Ok(r) && r.st.Colon? && !r.error && r.pending == 0 && r.stack == j.stack && r.index == j.index && r.complete == j.complete
    ensures r.key == j.key[|j.stack| - 1 := KeyBytes(cs)]
    ensures r.out == j.out + [Tell(KeyEv, KeyBytes(cs), true, Here(r))]
    ensures Run(j, Quoted(cs) + rest) == Run(r, rest)
  {
    var k := j.(inKey := true, keybuf := [], st := String);
    assert Step(j, '"' as int) == k && InStr(k);
    hide Run, InStr, Strung, ChrsOk, Step, Ok;
    assert Quoted(cs) + rest == ['"' as int] + (ChrsText(cs) + (['"' as int] + rest));
    RunStep(j, Quoted(cs) + rest, '"' as int, ChrsText(cs) + (['"' as int] + rest));
    var t := ChrsRun(k, cs, ['"' as int] + rest);
    r := KeyCloses(j, k, t, cs, rest);
  }

  lemma {:induction false} KeyCloses(j: Js, k: Js, t: Js, cs: seq<Chr>, rest: seq<Byte>) returns (r: Js)
    requires Ok(j) && !j.error && (j.st.ObjFirst? || j.st.ObjKey?) && j.pending == 0 && ChrsOk(cs)
    requires k == j.(inKey := true, keybuf := [], st := String) && Strung(k, t, StrBytes(cs))
    ensures Ok(r) && r.st.Colon? && !r.error && r.pending == 0 && r.stack == j.stack && r.index == j.index && r.complete == j.complete
    ensures r.key == j.key[|j.stack| - 1 := KeyBytes(cs)]
    ensures r.out == j.out + [Tell(KeyEv, KeyBytes(cs), true, Here(r))]
    ensures Run(t, ['"' as int] + rest) == Run(r, rest)
  {
    hide Run;
    assert [] + StrBytes(cs) == StrBytes(cs);
    RunStep(t, ['"' as int] + rest, '"' as int, rest);
    r := Step(t, '"' as int);
    hide Cut24;
  }

  // ---- lists ---------------------------------------------------------------------------------

  /** Inside the list or map that began at j, after k elements and these events. */
  ghost predicate InBody(j: Js, a: Js, kind: Kind, k: nat, evs: seq<Event>) {
    && Ok(a) && !a.error && a.pending == 0 && a.complete == j.complete && a.out == j.out + evs
    && |a.stack| == |j.stack| + 1 && a.stack == j.stack + [kind]
    && a.index == j.index + [if k == 0 then 0 else (k - 1) % 0x1_0000]
    && |a.key| == |j.key| + 1 && a.key[..|j.key|] == j.key && (kind.Arr? ==> a.key[|j.key|] == [])
    && a.st == if k > 0 then After else if kind.Arr? then ArrFirst else ObjFirst
  }

  lemma {:induction false} Opens(j: Js, kind: Kind)
    requires Ready(j) && |j.stack| < MAX_DEPTH
    ensures var c: Byte := if kind.Arr? then '[' as int else '{' as int;
            InBody(j, Step(j, c), kind, 0, [Tell(if kind.Arr? then ArrStart else ObjStart, [], true, Here(j))])
  {
  }

  /** The closing bracket pops back to where the list or map lies. */
  lemma {:induction false} Closes(j: Js, a: Js, kind: Kind, k: nat, evs: seq<Event>)
    requires Ready(j) && InBody(j, a, kind, k, evs)
    ensures var c: Byte := if kind.Arr? then ']' as int else '}' as int;
            Finished(j, Step(a, c), evs + [Tell(if kind.Arr? then ArrEnd else ObjEnd, [], true, Here(j))])
  {
    var n := |j.stack|;
    assert a.stack[..n] == j.stack && a.index[..n] == j.index && a.key[..n] == j.key;
    var e := Tell(if kind.Arr? then ArrEnd else ObjEnd, [], true, Here(j));
    assert j.out + evs + [e] == j.out + (evs + [e]);
  }

  /** The comma, if one is due, moves on to place k. */
  lemma {:induction false} ItemBegins(j: Js, a: Js, k: nat, evs: seq<Event>, rest: seq<Byte>) returns (b: Js)
    requires Ready(j) && InBody(j, a, Arr, k, evs)
    ensures Ready(b) && Here(b) == Inside(Here(j), Arr, k, []) && b.complete == j.complete && b.out == j.out + evs
    ensures Run(a, Comma(k) + rest) == Run(b, rest)
  {
    hide Run;
    b := if k == 0 then a else a.(index := a.index[|j.stack| := k % 0x1_0000], st := Value);
    assert a.key == j.key + [[]];
    if k == 0 {
      assert Comma(k) + rest == rest;
    } else {
      CommaStep(j, a, Arr, k, evs);
      RunStep(a, Comma(k) + rest, ',' as int, rest);
    }
  }

  lemma {:induction false} CommaStep(j: Js, a: Js, kind: Kind, k: nat, evs: seq<Event>)
    requires Ready(j) && InBody(j, a, kind, k, evs) && k > 0
    ensures Step(a, ',' as int) == a.(index := a.index[|j.stack| := k % 0x1_0000], st := if kind.Obj? then ObjKey else Value)
  {
    NextPlace(k);
  }

  lemma NextPlace(k: nat)
    requires k > 0
    ensures ((k - 1) % 0x1_0000 + 1) % 0x1_0000 == k % 0x1_0000
  {
  }

  lemma {:induction false} ItemEnds(j: Js, b: Js, r: Js, k: nat, evs: seq<Event>, more: seq<Event>)
    requires Ready(j) && Ready(b) && Here(b) == Inside(Here(j), Arr, k, []) && b.complete == j.complete && b.out == j.out + evs
    requires Finished(b, r, more)
    ensures InBody(j, r, Arr, k + 1, evs + more)
  {
    assert j.out + evs + more == j.out + (evs + more);
    assert (j.key + [[]])[..|j.key|] == j.key;
  }

  lemma SpaceDelimits(g: seq<Byte>, rest: seq<Byte>)
    requires Space(g) && rest != [] && Delimits(rest[0])
    ensures g + rest != [] && Delimits((g + rest)[0])
  {
    if g != [] { assert (g + rest)[0] == g[0]; }
  }

  lemma {:induction false} ItemsRun(j: Js, a0: Js, d: Doc, k: nat, rest: seq<Byte>) returns (a: Js)
    requires Ready(j) && d.List? && DocOk(d) && k <= |d.items| && Shallow(d, MAX_DEPTH - |j.stack|)
    requires InBody(j, a0, Arr, 0, [Tell(ArrStart, [], true, Here(j))])
    requires k > 0 ==> rest != [] && Delimits(rest[0])
    ensures InBody(j, a, Arr, k, [Tell(ArrStart, [], true, Here(j))] + ItemEvents(d, Here(j), k))
    ensures Run(a0, ItemsText(d, k) + rest) == Run(a, rest)
    decreases d, 0, k
  {
    hide Run, Ready, InBody, Space, Finished, Ok, Text, ItemsText, ItemEvents, Events, DocOk, Shallow, Delimits;
    var start := [Tell(ArrStart, [], true, Here(j))];
    if k == 0 {
      NoItems(d, Here(j), rest);
      assert start + [] == start;
      return a0;
    }
    var it := d.items[k - 1];
    var evs, c := start + ItemEvents(d, Here(j), k - 1), Comma(k - 1);
    var x := it.w0 + (Text(it.v) + (it.w1 + rest));
    ItemText(d, k, rest);
    ItemOk(d, k, MAX_DEPTH - |j.stack|);
    ItemTold(d, Here(j), k);
    CommaDelimits(k - 1, x);
    var p := ItemsRun(j, a0, d, k - 1, c + x);
    var b := ItemBegins(j, p, k - 1, evs, x);
    SpaceDelimits(it.w1, rest);
    a := SpacedRun(b, it.w0, it.v, it.w1, rest);
    ItemEnds(j, b, a, k - 1, evs, Events(it.v, Here(b)));
    Grouped(start, ItemEvents(d, Here(j), k - 1), Events(it.v, Here(b)));
  }

  lemma Grouped(a: seq<Event>, b: seq<Event>, c: seq<Event>)
    ensures a + b + c == a + (b + c)
  {
  }

  lemma CommaDelimits(k: nat, x: seq<Byte>)
    ensures k > 0 ==> Comma(k) + x != [] && Delimits((Comma(k) + x)[0])
  {
  }

  lemma NoItems(d: Doc, c: Ctx, rest: seq<Byte>)
    requires d.List? && DocOk(d)
    ensures ItemsText(d, 0) + rest == rest && ItemEvents(d, c, 0) == []
  {
  }

  lemma ItemOk(d: Doc, k: nat, n: int)
    requires d.List? && DocOk(d) && Shallow(d, n) && 0 < k <= |d.items|
    ensures var it := d.items[k - 1]; Space(it.w0) && DocOk(it.v) && Space(it.w1) && Shallow(it.v, n - 1)
  {
  }

  lemma ItemTold(d: Doc, c: Ctx, k: nat)
    requires d.List? && DocOk(d) && 0 < k <= |d.items|
    ensures DocOk(d.items[k - 1].v)
    ensures ItemEvents(d, c, k) == ItemEvents(d, c, k - 1) + Events(d.items[k - 1].v, Inside(c, Arr, k - 1, []))
  {
  }

  lemma {:induction false} ItemText(d: Doc, k: nat, rest: seq<Byte>)
    requires d.List? && 0 < k <= |d.items|
    ensures var it := d.items[k - 1];
            ItemsText(d, k) + rest == ItemsText(d, k - 1) + (Comma(k - 1) + (it.w0 + (Text(it.v) + (it.w1 + rest))))
  {
  }

  /** A value with whitespace round it. */
  lemma {:induction false} SpacedRun(b: Js, w0: seq<Byte>, v: Doc, w1: seq<Byte>, rest: seq<Byte>) returns (a: Js)
    requires Ready(b) && Space(w0) && Space(w1) && DocOk(v) && Shallow(v, MAX_DEPTH - |b.stack|)
    requires w1 + rest != [] && Delimits((w1 + rest)[0])
    ensures Finished(b, a, Events(v, Here(b)))
    ensures Run(b, w0 + (Text(v) + (w1 + rest))) == Run(a, rest)
    decreases v, 2, 0
  {
    hide Run, Space, Text, Delimits;
    SpaceRun(b, w0, Text(v) + (w1 + rest));
    a := ValueRun(b, v, w1 + rest);
    SpaceRun(a, w1, rest);
  }

  /** A value is read where one may begin, and told as its own events. */
  lemma {:induction false} ValueRun(j: Js, d: Doc, rest: seq<Byte>) returns (r: Js)
    requires Ready(j) && DocOk(d) && Shallow(d, MAX_DEPTH - |j.stack|) && Closed(d, rest)
    ensures Finished(j, r, Events(d, Here(j))) && Run(j, Text(d) + rest) == Run(r, rest)
    decreases d, 1, 0
  {
    hide Run, Ready, Finished, ItemsText, MembersText, ItemEvents, MemberEvents, InBody, Quoted, LitText, StrEvents;
    match d
    case Lit(w) => r := LitRun(j, w, rest);
    case Num(t) =>
      var p;
      r, p := NumRun(j, t, rest);
    case Str(cs) => r := StrRun(j, cs, rest);
    case List(_, _) => r := ListRun(j, d, rest);
    case Map(_, _) => r := MapRun(j, d, rest);
  }

  /** The bracket is taken. */
  lemma {:induction false} ListBegins(j: Js, d: Doc, rest: seq<Byte>)
    requires Ready(j) && d.List? && DocOk(d) && Shallow(d, MAX_DEPTH - |j.stack|)
    ensures InBody(j, Step(j, '[' as int), Arr, 0, [Tell(ArrStart, [], true, Here(j))])
    ensures var x := (if d.items == [] then d.gap else []) + ([']' as int] + rest);
            && Run(j, Text(d) + rest) == Run(Step(j, '[' as int), ItemsText(d, |d.items|) + x)
            && (d.items != [] ==> x != [] && Delimits(x[0]))
  {
    BodyOk(j, d);
    hide Run, Step, InBody, Text, ItemsText, Ok, Ready, DocOk, Shallow, Space;
    var x := (if d.items == [] then d.gap else []) + ([']' as int] + rest);
    ListText(d, rest);
    RunStep(j, Text(d) + rest, '[' as int, ItemsText(d, |d.items|) + x);
    Opens(j, Arr);
  }

  lemma {:induction false} ListRun(j: Js, d: Doc, rest: seq<Byte>) returns (r: Js)
    requires Ready(j) && d.List? && DocOk(d) && Shallow(d, MAX_DEPTH - |j.stack|)
    ensures Finished(j, r, Events(d, Here(j))) && Run(j, Text(d) + rest) == Run(r, rest)
    decreases d, 0, |d.items| + 1
  {
    hide Run, Step, Finished, InBody, Space, Text, ItemsText, ItemEvents, Events, DocOk, Delimits, Ok, Ready, Shallow, Tell, Here;
    BodyOk(j, d);
    var n, g := |d.items|, if d.items == [] then d.gap else [];
    ListBegins(j, d, rest);
    var a := ItemsRun(j, Step(j, '[' as int), d, n, g + ([']' as int] + rest));
    r := BodyCloses(j, a, Arr, n, [Tell(ArrStart, [], true, Here(j))] + ItemEvents(d, Here(j), n), g, rest);
    ListTold(d, Here(j));
  }

  lemma BodyOk(j: Js, d: Doc)
    requires Ready(j) && (d.List? || d.Map?) && DocOk(d) && Shallow(d, MAX_DEPTH - |j.stack|)
    ensures Space(d.gap) && Space([]) && Ok(j) && |j.stack| < MAX_DEPTH
  {
  }

  lemma ListTold(d: Doc, c: Ctx)
    requires d.List? && DocOk(d)
    ensures Events(d, c) == ([Tell(ArrStart, [], true, c)] + ItemEvents(d, c, |d.items|)) + [Tell(ArrEnd, [], true, c)]
  {
  }

  lemma MapTold(d: Doc, c: Ctx)
    requires d.Map? && DocOk(d)
    ensures Events(d, c) == ([Tell(ObjStart, [], true, c)] + MemberEvents(d, c, |d.members|)) + [Tell(ObjEnd, [], true, c)]
  {
  }

  lemma {:induction false} ListText(d: Doc, rest: seq<Byte>)
    requires d.List?
    ensures var g := if d.items == [] then d.gap else [];
            Text(d) + rest == ['[' as int] + (ItemsText(d, |d.items|) + (g + ([']' as int] + rest)))
  {
    hide ItemsText;
  }

  lemma {:induction false} BodyCloses(j: Js, a: Js, kind: Kind, k: nat, evs: seq<Event>, g: seq<Byte>, rest: seq<Byte>) returns (r: Js)
    requires Ready(j) && InBody(j, a, kind, k, evs) && Space(g)
    ensures Finished(j, r, evs + [Tell(if kind.Arr? then ArrEnd else ObjEnd, [], true, Here(j))])
    ensures var c: Byte := if kind.Arr? then ']' as int else '}' as int; Run(a, g + ([c] + rest)) == Run(r, rest)
  {
    hide Run, Space, Finished;
    var c: Byte := if kind.Arr? then ']' as int else '}' as int;
    SpaceRun(a, g, [c] + rest);
    RunStep(a, [c] + rest, c, rest);
    Closes(j, a, kind, k, evs);
    r := Step(a, c);
  }

  // ---- maps ----------------------------------------------------------------------------------

  /** The comma, if one is due, moves on to place k and asks for a key. */
  lemma {:induction false} MemberBegins(j: Js, a: Js, k: nat, evs: seq<Event>, rest: seq<Byte>) returns (b: Js)
    requires Ready(j) && InBody(j, a, Obj, k, evs)
    ensures Ok(b) && !b.error && (b.st.ObjFirst? || b.st.ObjKey?) && b.pending == 0 && b.complete == j.complete && b.out == j.out + evs
    ensures b.stack == j.stack + [Obj] && b.index == j.index + [k % 0x1_0000] && |b.key| == |j.key| + 1 && b.key[..|j.key|] == j.key
    ensures Run(a, Comma(k) + rest) == Run(b, rest)
  {
    hide Run;
    b := if k == 0 then a else a.(index := a.index[|j.stack| := k % 0x1_0000], st := ObjKey);
    if k == 0 {
      assert Comma(k) + rest == rest;
    } else {
      CommaStep(j, a, Obj, k, evs);
      RunStep(a, Comma(k) + rest, ',' as int, rest);
    }
  }

  /** Key, colon and the state the member's value begins in. */
  lemma {:induction false} KeyColon(j: Js, b: Js, k: nat, evs: seq<Event>, w0: seq<Byte>, key: seq<Chr>, w1: seq<Byte>, rest: seq<Byte>)
    returns (c: Js)
    requires Ready(j) && ChrsOk(key) && Space(w0) && Space(w1)
    requires Ok(b) && !b.error && (b.st.ObjFirst? || b.st.ObjKey?) && b.pending == 0 && b.complete == j.complete && b.out == j.out + evs
    requires b.stack == j.stack + [Obj] && b.index == j.index + [k % 0x1_0000] && |b.key| == |j.key| + 1 && b.key[..|j.key|] == j.key
    ensures Ready(c) && Here(c) == Inside(Here(j), Obj, k, KeyBytes(key)) && c.complete == j.complete
    ensures c.out == j.out + (evs + [Tell(KeyEv, KeyBytes(key), true, Here(c))])
    ensures Run(b, w0 + (Quoted(key) + (w1 + ([':' as int] + rest)))) == Run(c, rest)
  {
    hide Run, Space, Quoted, KeyBytes, ChrsOk;
    SpaceRun(b, w0, Quoted(key) + (w1 + ([':' as int] + rest)));
    var t := KeyRun(b, key, w1 + ([':' as int] + rest));
    SpaceRun(t, w1, [':' as int] + rest);
    RunStep(t, [':' as int] + rest, ':' as int, rest);
    c := t.(st := Value);
    assert Step(t, ':' as int) == c;
    assert c.key == j.key + [KeyBytes(key)];
    var e := Tell(KeyEv, KeyBytes(key), true, Here(c));
    assert j.out + evs + [e] == j.out + (evs + [e]);
  }

  lemma {:induction false} MemberEnds(j: Js, b: Js, r: Js, k: nat, key: seq<Byte>, evs: seq<Event>, more: seq<Event>)
    requires Ready(j) && Ready(b) && Here(b) == Inside(Here(j), Obj, k, key) && b.complete == j.complete && b.out == j.out + evs
    requires Finished(b, r, more)
    ensures InBody(j, r, Obj, k + 1, evs + more)
  {
    assert j.out + evs + more == j.out + (evs + more);
    assert (j.key + [key])[..|j.key|] == j.key;
  }

  lemma {:induction false} MembersRun(j: Js, a0: Js, d: Doc, k: nat, rest: seq<Byte>) returns (a: Js)
    requires Ready(j) && d.Map? && DocOk(d) && k <= |d.members| && Shallow(d, MAX_DEPTH - |j.stack|)
    requires InBody(j, a0, Obj, 0, [Tell(ObjStart, [], true, Here(j))])
    requires k > 0 ==> rest != [] && Delimits(rest[0])
    ensures InBody(j, a, Obj, k, [Tell(ObjStart, [], true, Here(j))] + MemberEvents(d, Here(j), k))
    ensures Run(a0, MembersText(d, k) + rest) == Run(a, rest)
    decreases d, 0, k
  {
    hide Run, Ready, InBody, Space, Finished, Ok, Quoted, KeyBytes, ChrsOk, Text, MembersText, MemberEvents, Events, DocOk, Shallow, Delimits;
    var start := [Tell(ObjStart, [], true, Here(j))];
    if k == 0 {
      NoMembers(d, Here(j), rest);
      assert start + [] == start;
      return a0;
    }
    var m := d.members[k - 1];
    MemberOk(d, k, MAX_DEPTH - |j.stack|);
    var evs, c := start + MemberEvents(d, Here(j), k - 1), Comma(k - 1);
    var y := m.w2 + (Text(m.v) + (m.w3 + rest));
    var x := m.w0 + (Quoted(m.key) + (m.w1 + ([':' as int] + y)));
    MemberText(d, k, rest);
    CommaDelimits(k - 1, x);
    var p := MembersRun(j, a0, d, k - 1, c + x);
    var b := MemberBegins(j, p, k - 1, evs, x);
    var v := KeyColon(j, b, k - 1, evs, m.w0, m.key, m.w1, y);
    SpaceDelimits(m.w3, rest);
    a := SpacedRun(v, m.w2, m.v, m.w3, rest);
    MemberTold(d, Here(j), k);
    var e := [Tell(KeyEv, KeyBytes(m.key), true, Here(v))];
    MemberEnds(j, v, a, k - 1, KeyBytes(m.key), evs + e, Events(m.v, Here(v)));
    Grouped(evs, e, Events(m.v, Here(v)));
    Grouped(start, MemberEvents(d, Here(j), k - 1), e + Events(m.v, Here(v)));
  }

  lemma NoMembers(d: Doc, c: Ctx, rest: seq<Byte>)
    requires d.Map? && DocOk(d)
    ensures MembersText(d, 0) + rest == rest && MemberEvents(d, c, 0) == []
  {
  }

  lemma MemberOk(d: Doc, k: nat, n: int)
    requires d.Map? && DocOk(d) && Shallow(d, n) && 0 < k <= |d.members|
    ensures var m := d.members[k - 1];
            Space(m.w0) && ChrsOk(m.key) && Space(m.w1) && Space(m.w2) && DocOk(m.v) && Space(m.w3) && Shallow(m.v, n - 1)
  {
  }

  lemma MemberTold(d: Doc, c: Ctx, k: nat)
    requires d.Map? && DocOk(d) && 0 < k <= |d.members|
    ensures DocOk(d.members[k - 1].v) && ChrsOk(d.members[k - 1].key)
    ensures var m := d.members[k - 1];
            var inner := Inside(c, Obj, k - 1, KeyBytes(m.key));
            MemberEvents(d, c, k) == MemberEvents(d, c, k - 1) + ([Tell(KeyEv, KeyBytes(m.key), true, inner)] + Events(m.v, inner))
  {
  }

  lemma {:induction false} MemberText(d: Doc, k: nat, rest: seq<Byte>)
    requires d.Map? && 0 < k <= |d.members|
    ensures var m := d.members[k - 1];
            MembersText(d, k) + rest
            == MembersText(d, k - 1)
               + (Comma(k - 1) + (m.w0 + (Quoted(m.key) + (m.w1 + ([':' as int] + (m.w2 + (Text(m.v) + (m.w3 + rest))))))))
  {
  }

  lemma {:induction false} MapText(d: Doc, rest: seq<Byte>)
    requires d.Map?
    ensures var g := if d.members == [] then d.gap else [];
            Text(d) + rest == ['{' as int] + (MembersText(d, |d.members|) + (g + (['}' as int] + rest)))
  {
    hide MembersText;
  }

  /** The bracket is taken. */
  lemma {:induction false} MapBegins(j: Js, d: Doc, rest: seq<Byte>)
    requires Ready(j) && d.Map? && DocOk(d) && Shallow(d, MAX_DEPTH - |j.stack|)
    ensures InBody(j, Step(j, '{' as int), Obj, 0, [Tell(ObjStart, [], true, Here(j))])
    ensures var x := (if d.members == [] then d.gap else []) + (['}' as int] + rest);
            && Run(j, Text(d) + rest) == Run(Step(j, '{' as int), MembersText(d, |d.members|) + x)
            && (d.members != [] ==> x != [] && Delimits(x[0]))
  {
    BodyOk(j, d);
    hide Run, Step, InBody, Text, MembersText, Ok, Ready, DocOk, Shallow, Space;
    var x := (if d.members == [] then d.gap else []) + (['}' as int] + rest);
    MapText(d, rest);
    RunStep(j, Text(d) + rest, '{' as int, MembersText(d, |d.members|) + x);
    Opens(j, Obj);
  }

  lemma {:induction false} MapRun(j: Js, d: Doc, rest: seq<Byte>) returns (r: Js)
    requires Ready(j) && d.Map? && DocOk(d) && Shallow(d, MAX_DEPTH - |j.stack|)
    ensures Finished(j, r, Events(d, Here(j))) && Run(j, Text(d) + rest) == Run(r, rest)
    decreases d, 0, |d.members| + 1
  {
    hide Run, Step, Finished, InBody, Space, Text, MembersText, MemberEvents, Events, DocOk, Delimits, Ok, Ready, Shallow, Tell, Here;
    BodyOk(j, d);
    var n, g := |d.members|, if d.members == [] then d.gap else [];
    MapBegins(j, d, rest);
    var a := MembersRun(j, Step(j, '{' as int), d, n, g + (['}' as int] + rest));
    r := BodyCloses(j, a, Obj, n, [Tell(ObjStart, [], true, Here(j))] + MemberEvents(d, Here(j), n), g, rest);
    MapTold(d, Here(j));
  }

  // ---- whole texts ---------------------------------------------------------------------------

  lemma SpaceEnds(g: seq<Byte>)
    requires Space(g)
    ensures g != [] ==> Delimits(g[0])
  {
  }

  /** Every value of at most twelve containers one in the other, however it is written, is accepted, and
      what is told is the value: every scalar, bracket and key in order, each in its containers, at its
      place and under its key. */
  lemma {:induction false} TextMeans(w0: seq<Byte>, d: Doc, w1: seq<Byte>)
    requires DocOk(d) && Shallow(d, MAX_DEPTH) && Space(w0) && Space(w1)
    ensures var (j, ok) := Finish(Run(Start(), w0 + (Text(d) + w1)));
            ok && j.complete && j.out == Events(d, Ctx([], [], []))
  {
    hide Run, Space, Text, Events, DocOk, EndNumber, Shallow, Delimits;
    SpaceEnds(w1);
    SpaceRun(Start(), w0, Text(d) + w1);
    assert [] + Events(d, Ctx([], [], [])) == Events(d, Ctx([], [], []));
    if d.Num? && w1 == [] {
      NumberText(d);
    } else {
      var r := ValueRun(Start(), d, w1);
      assert w1 + [] == w1;
      SpaceRun(r, w1, []);
      RunEmpty(r);
    }
  }

  lemma {:induction false} NumberText(d: Doc)
    requires d.Num? && DocOk(d)
    ensures var (j, ok) := Finish(Run(Start(), Text(d) + []));
            ok && j.complete && j.out == Events(d, Ctx([], [], []))
  {
    hide Run, EndNumber;
    assert d.t + [] == d.t;
    var r, p := NumRun(Start(), d.t, []);
    assert [] + Events(d, Ctx([], [], [])) == Events(d, Ctx([], [], []));
  }
}
