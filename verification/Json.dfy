/** The JSON tokenizer as a machine that takes one byte at a time. Events carry the context the
    callback can read; a string's bytes are separate events here, however the feeds were cut. */
module Json {
  import opened Prelude

  const MAX_DEPTH := 12
  const KEY_MAX := 24
  const NUM_MAX := 31

  datatype St = Value | ArrFirst | ObjFirst | ObjKey | String | Escape | UHex | Colon | Number | Literal | After | Done | Error

  datatype Kind = Obj | Arr

  datatype EventKind = ObjStart | ObjEnd | ArrStart | ArrEnd | KeyEv | StringEv | NumberEv | TrueEv | FalseEv | NullEv

  /** One callback: what the tokenizer passes and the navigation state the callback can look at. */
  datatype Event = Event(kind: EventKind, data: seq<Byte>, final: bool,
                         stack: seq<Kind>, index: seq<nat>, key: seq<seq<Byte>>)

  /** The tokenizer. The three lists have one entry per open container; `out` is history: every event
      so far, string chunks cut into bytes. */
  datatype Js = Js(st: St, sub: nat, stack: seq<Kind>, index: seq<nat>, key: seq<seq<Byte>>, error: bool, complete: bool,
                   keybuf: seq<Byte>, num: seq<Byte>, matched: nat, uescape: nat, pending: nat, inKey: bool, out: seq<Event>)

  predicate InString(st: St) {
    st.String? || st.Escape? || st.UHex?
  }

  /** What the code relies on between bytes. */
  ghost predicate Ok(j: Js) {
    && |j.index| == |j.key| == |j.stack| <= MAX_DEPTH
    && (j.st.ObjFirst? || j.st.ObjKey? || j.st.Colon? || j.st.After? ==> |j.stack| > 0)
    && (InString(j.st) && j.inKey ==> |j.stack| > 0)
    && |j.keybuf| <= KEY_MAX && j.uescape < 0x1_0000 && (j.pending == 0 || High(j.pending))
    && (j.st.Literal? ==> 1 <= j.matched < |Letters(j.sub)|)
    && (j.st.Error? <==> j.error)
  }

  function Start(): (j: Js)
    ensures Ok(j)
  {
    Js(Value, 0, [], [], [], false, false, [], [], 0, 0, 0, false, [])
  }

  // ---- characters ----------------------------------------------------------------------------

  predicate IsSpace(c: Byte) {
    c == ' ' as int || c == '\n' as int || c == '\r' as int || c == '\t' as int
  }

  predicate IsPlain(c: Byte) {
    c != '"' as int && c != '\\' as int && c >= 0x20
  }

  /** The literal a first letter announces. */
  function Letters(first: nat): (s: string)
    ensures |s| >= 4
  {
    if first == 't' as int then "true" else if first == 'f' as int then "false" else "null"
  }

  // ---- events --------------------------------------------------------------------------------

  /** A string chunk as the bytes it carries, and a closing event if it is the last. */
  function Cut(e: Event): seq<Event> {
    if e.kind.StringEv? then
      seq<Event>(|e.data|, i requires 0 <= i < |e.data| => e.(data := [e.data[i]], final := false))
      + if e.final then [e.(data := [])] else []
    else [e]
  }

  function Emit(j: Js, kind: EventKind, data: seq<Byte>, final: bool): Js {
    j.(out := j.out + Cut(Event(kind, data, final, j.stack, j.index, j.key)))
  }

  function Fail(j: Js): Js {
    j.(error := true, st := Error)
  }

  /** Bytes of a key are collected, up to KEY_MAX; bytes of a value are sent on. */
  function EmitBytes(j: Js, b: seq<Byte>): (r: Js)
    requires Ok(j)
    ensures Ok(r) && r.st == j.st && r.pending == j.pending && r.inKey == j.inKey && r.error == j.error
  {
    if j.inKey then
      var room := KEY_MAX - |j.keybuf|;
      j.(keybuf := j.keybuf + if |b| > room then b[..room] else b)
    else Emit(j, StringEv, b, false)
  }

  /** UTF-8. */
  function Utf8(cp: nat): (b: seq<Byte>)
    requires cp < 0x20_0000
    ensures 1 <= |b| <= 4
  {
    if cp < 0x80 then [cp]
    else if cp < 0x800 then [0xC0 + cp / 0x40, 0x80 + cp % 0x40]
    else if cp < 0x1_0000 then [0xE0 + cp / 0x1000, 0x80 + cp / 0x40 % 0x40, 0x80 + cp % 0x40]
    else [0xF0 + cp / 0x4_0000, 0x80 + cp / 0x1000 % 0x40, 0x80 + cp / 0x40 % 0x40, 0x80 + cp % 0x40]
  }

  function EmitCodepoint(j: Js, cp: nat): (r: Js)
    requires Ok(j) && cp < 0x20_0000
    ensures Ok(r) && r.st == j.st && r.pending == j.pending && r.inKey == j.inKey && r.error == j.error
  {
    EmitBytes(j, Utf8(cp))
  }

  /** A high surrogate that no low one followed. */
  function FlushPending(j: Js): (r: Js)
    requires Ok(j)
    ensures Ok(r) && r.st == j.st && r.inKey == j.inKey && r.pending == 0 && r.error == j.error
  {
    if j.pending == 0 then j else EmitCodepoint(j.(pending := 0), 0xFFFD)
  }

  // ---- values --------------------------------------------------------------------------------

  function ValueDone(j: Js): (r: Js)
    requires Ok(j) && !j.error
    ensures Ok(r) && !r.error && (r.st.After? || r.st.Done?)
  {
    if j.stack == [] then j.(complete := true, st := Done) else j.(st := After)
  }

  function Push(j: Js, kind: Kind): (r: Js)
    requires Ok(j) && !j.error
    ensures Ok(r)
  {
    if |j.stack| >= MAX_DEPTH then Fail(j)
    else
      var e := Emit(j, if kind.Obj? then ObjStart else ArrStart, [], true);
      e.(stack := e.stack + [kind], index := e.index + [0], key := e.key + [[]], st := if kind.Obj? then ObjFirst else ArrFirst)
  }

  function Pop(j: Js, kind: Kind): (r: Js)
    requires Ok(j) && !j.error
    ensures Ok(r)
  {
    var n := |j.stack|;
    if n == 0 || j.stack[n - 1] != kind then Fail(j)
    else
      var p := j.(stack := j.stack[..n - 1], index := j.index[..n - 1], key := j.key[..n - 1], st := Value);
      ValueDone(Emit(p, if kind.Obj? then ObjEnd else ArrEnd, [], true))
  }

  function BeginKey(j: Js): (r: Js)
    requires Ok(j) && !j.error && |j.stack| > 0
    ensures Ok(r)
  {
    j.(inKey := true, keybuf := [], st := String)
  }

  function BeginValue(j: Js, c: Byte): (r: Js)
    requires Ok(j) && !j.error
    ensures Ok(r)
  {
    if c == '{' as int then Push(j, Obj)
    else if c == '[' as int then Push(j, Arr)
    else if c == '"' as int then j.(inKey := false, st := String)
    else if c == 't' as int || c == 'f' as int || c == 'n' as int then j.(st := Literal, sub := c, matched := 1)
    else if c == '-' as int || IsDigit(c) then
      j.(st := Number, num := [c], sub := if c == '-' as int then 0 else if c == '0' as int then 1 else 2)
    else Fail(j)
  }

  // ---- numbers -------------------------------------------------------------------------------

  datatype NumberStep = Goes(sub: nat) | Ends | Bad

  /** -? (0 | [1-9][0-9]*) (. [0-9]+)? ([eE] [+-]? [0-9]+)?, section 6 of RFC 8259. */
  function NumberNext(sub: nat, c: Byte): NumberStep {
    var d, dot, e := IsDigit(c), c == '.' as int, c == 'e' as int || c == 'E' as int;
    if sub == 0 then if c == '0' as int then Goes(1) else if d then Goes(2) else Bad
    else if sub == 1 then if dot then Goes(3) else if e then Goes(5) else if d then Bad else Ends
    else if sub == 2 then if d then Goes(2) else if dot then Goes(3) else if e then Goes(5) else Ends
    else if sub == 3 then if d then Goes(4) else Bad
    else if sub == 4 then if d then Goes(4) else if e then Goes(5) else Ends
    else if sub == 5 then if c == '+' as int || c == '-' as int then Goes(6) else if d then Goes(7) else Bad
    else if sub == 6 then if d then Goes(7) else Bad
    else if d then Goes(7) else Ends
  }

  predicate Terminal(sub: nat) {
    sub == 1 || sub == 2 || sub == 4 || sub == 7
  }

  function EndNumber(j: Js): (r: Js)
    requires Ok(j) && !j.error
    ensures Ok(r) && (r.error || r.st.After? || r.st.Done?)
  {
    if !Terminal(j.sub) then Fail(j) else ValueDone(Emit(j, NumberEv, j.num, true).(st := Value))
  }

  // ---- one byte ------------------------------------------------------------------------------

  /** Between tokens. */
  function Boundary(j: Js, c: Byte): (r: Js)
    requires Ok(j) && !j.error
    ensures Ok(r)
  {
    if IsSpace(c) then j
    else match j.st
      case Value => BeginValue(j, c)
      case ArrFirst => if c == ']' as int then Pop(j, Arr) else BeginValue(j, c)
      case ObjFirst => if c == '}' as int then Pop(j, Obj) else if c == '"' as int then BeginKey(j) else Fail(j)
      case ObjKey => if c == '"' as int then BeginKey(j) else Fail(j)
      case Colon => if c == ':' as int then j.(st := Value) else Fail(j)
      case After =>
        var n := |j.stack| - 1;
        if c == ',' as int then
          j.(index := j.index[n := (j.index[n] + 1) % 0x1_0000], st := if j.stack[n].Obj? then ObjKey else Value)
        else if c == ']' as int then Pop(j, Arr)
        else if c == '}' as int then Pop(j, Obj)
        else Fail(j)
      case _ => Fail(j)
  }

  /** A byte of a string, once no surrogate is left waiting for it. */
  function StringByte(j: Js, c: Byte): (r: Js)
    requires Ok(j) && j.st.String?
    ensures Ok(r)
  {
    if IsPlain(c) then EmitBytes(j, [c])
    else if c == '"' as int then CloseString(j)
    else if c == '\\' as int then j.(st := Escape)
    else Fail(j)
  }

  function CloseString(j: Js): (r: Js)
    requires Ok(j) && j.st.String?
    ensures Ok(r)
  {
    if j.inKey then
      Emit(j.(key := j.key[|j.stack| - 1 := j.keybuf], inKey := false), KeyEv, j.keybuf, true).(st := Colon)
    else ValueDone(Emit(j, StringEv, [], true))
  }

  /** The byte a simple escape stands for. */
  function Unescaped(c: Byte): Option<Byte> {
    if c == '"' as int || c == '\\' as int || c == '/' as int then Some(c)
    else if c == 'b' as int then Some(8)
    else if c == 'f' as int then Some(12)
    else if c == 'n' as int then Some(10)
    else if c == 'r' as int then Some(13)
    else if c == 't' as int then Some(9)
    else None
  }

  function EscapeByte(j: Js, c: Byte): (r: Js)
    requires Ok(j) && j.st.Escape?
    ensures Ok(r)
  {
    if c == 'u' as int then j.(st := UHex, sub := 0, uescape := 0)
    else if Unescaped(c) == None then Fail(j)
    else EmitBytes(FlushPending(j), [Unescaped(c).value]).(st := String)
  }

  predicate High(cp: nat) {
    0xD800 <= cp <= 0xDBFF
  }

  predicate Low(cp: nat) {
    0xDC00 <= cp <= 0xDFFF
  }

  /** The character two surrogates stand for. */
  function Pair(hi: nat, lo: nat): (cp: nat)
    requires High(hi) && Low(lo)
    ensures 0x1_0000 <= cp < 0x11_0000
  {
    0x1_0000 + (hi - 0xD800) * 0x400 + (lo - 0xDC00)
  }

  function EndUescape(j: Js): (r: Js)
    requires Ok(j)
    ensures Ok(r) && r.st == j.st && r.error == j.error && r.inKey == j.inKey
  {
    var cp := j.uescape;
    if j.pending != 0 && Low(cp) then EmitCodepoint(j.(pending := 0), Pair(j.pending, cp))
    else
      var f := FlushPending(j);
      if High(cp) then f.(pending := cp) else EmitCodepoint(f, if Low(cp) then 0xFFFD else cp)
  }

  function HexByte(j: Js, c: Byte): (r: Js)
    requires Ok(j) && j.st.UHex?
    ensures Ok(r)
  {
    if HexValue(c) == None then Fail(j)
    else
      var h := j.(uescape := (j.uescape * 16 + HexValue(c).value) % 0x1_0000, sub := (j.sub + 1) % 256);
      if h.sub == 4 then EndUescape(h).(st := String) else h
  }

  function NumberByte(j: Js, c: Byte): (r: Js)
    requires Ok(j) && j.st.Number?
    ensures Ok(r)
  {
    match NumberNext(j.sub, c)
    case Bad => Fail(j)
    case Goes(sub) => if |j.num| >= NUM_MAX then Fail(j) else j.(num := j.num + [c], sub := sub)
    case Ends =>
      var e := EndNumber(j);
      if e.error || e.st.Done? then e else Boundary(e, c)
  }

  function LiteralByte(j: Js, c: Byte): (r: Js)
    requires Ok(j) && j.st.Literal?
    ensures Ok(r)
  {
    if Letters(j.sub)[j.matched] as int != c then Fail(j)
    else
      var m := j.(matched := j.matched + 1);
      if m.matched == |Letters(j.sub)| then
        ValueDone(Emit(m, if j.sub == 't' as int then TrueEv else if j.sub == 'f' as int then FalseEv else NullEv, [], true).(st := Value))
      else m
  }

  function Step(j: Js, c: Byte): (r: Js)
    requires Ok(j)
    ensures Ok(r)
  {
    match j.st
    case Done => j
    case Error => j
    case String => StringByte(if c == '\\' as int then j else FlushPending(j), c)
    case Escape => EscapeByte(j, c)
    case UHex => HexByte(j, c)
    case Number => NumberByte(j, c)
    case Literal => LiteralByte(j, c)
    case _ => Boundary(j, c)
  }

  /** The tokenizer after a whole stretch of bytes. */
  function Run(j: Js, s: seq<Byte>): (r: Js)
    requires Ok(j)
    ensures Ok(r)
    decreases |s|
  {
    if s == [] then j else Run(Step(j, s[0]), s[1..])
  }

  /** json_stream_finish: a top-level number has no other terminator. */
  function Finish(j: Js): (r: (Js, bool))
    requires Ok(j)
  {
    if j.error then (j, false)
    else if j.complete then (j, true)
    else if j.st.Number? && j.stack == [] && Terminal(j.sub) then (EndNumber(j), true)
    else (Fail(j), false)
  }

  lemma {:induction false} RunSplit(j: Js, a: seq<Byte>, b: seq<Byte>)
    requires Ok(j)
    ensures Run(j, a + b) == Run(Run(j, a), b)
    decreases |a|
  {
    hide Step, Ok;
    if a == [] {
      assert a + b == b;
    } else {
      assert (a + b)[1..] == a[1..] + b;
      RunSplit(Step(j, a[0]), a[1..], b);
    }
  }

  /** A tokenizer that failed or finished takes no further notice of its input. */
  lemma {:induction false} RunStuck(j: Js, s: seq<Byte>)
    requires Ok(j) && (j.error || j.st.Done?)
    ensures Run(j, s) == j
    decreases |s|
  {
    if s != [] { RunStuck(j, s[1..]); }
  }
}
