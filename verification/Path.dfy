/** SVG path text: the scanner both front ends share, and the numbers it hands on. A float is its
    32-bit pattern; how decimal parts become one is a parameter. */
module Path {
  import opened Prelude

  /** parts_to_float: mantissa, decimal exponent and sign to the nearest float. */
  type Conv = (nat, int, bool) -> Word

  const NUM_BYTES := 23

  predicate IsSeparator(c: Byte) {
    c == ' ' as int || (9 <= c <= 13) || c == ',' as int
  }

  // ---- numbers -------------------------------------------------------------------------------

  /** pnum_t. When compact, value is dec / 10^k converted. */
  datatype Num = Num(value: Word, dec: int, k: nat, compact: bool)

  /** Running state of the digits: mantissa of at most 9 digits, digits in it, exponent, digits lost. */
  datatype Mant = Mant(mant: nat, ndig: nat, e: int, truncated: bool)

  function IntDigit(m: Mant, c: Byte): Mant
    requires IsDigit(c)
  {
    if m.ndig < 9 then
      var v := m.mant * 10 + (c - '0' as int);
      m.(mant := v, ndig := if v != 0 then m.ndig + 1 else m.ndig)
    else m.(e := m.e + 1, truncated := true)
  }

  function FracDigit(m: Mant, c: Byte): Mant
    requires IsDigit(c)
  {
    if m.ndig < 9 then
      var v := m.mant * 10 + (c - '0' as int);
      m.(mant := v, ndig := if v != 0 then m.ndig + 1 else m.ndig, e := m.e - 1)
    else m.(truncated := true)
  }

  /** Digits from i on, and where they end. */
  function DecimalDigits(s: seq<Byte>, i: nat, m: Mant, frac: bool): (r: (Mant, nat))
    requires i <= |s|
    ensures i <= r.1 <= |s|
    decreases |s| - i
  {
    if i < |s| && IsDigit(s[i]) then DecimalDigits(s, i + 1, if frac then FracDigit(m, s[i]) else IntDigit(m, s[i]), frac)
    else (m, i)
  }

  function ExpDigits(s: seq<Byte>, i: nat, ev: nat): nat
    requires i <= |s|
    decreases |s| - i
  {
    if i < |s| && IsDigit(s[i]) then ExpDigits(s, i + 1, if ev < 1000 then ev * 10 + (s[i] - '0' as int) else ev) else ev
  }

  function ExpValue(s: seq<Byte>, i: nat): int
    requires i <= |s|
  {
    var signed := i < |s| && IsSign(s[i]);
    var v: int := ExpDigits(s, if signed then i + 1 else i, 0);
    if signed && s[i] == '-' as int then 0 - v else v
  }

  /** num_parse. */
  function Parse(conv: Conv, s: seq<Byte>): Num {
    var i := if s != [] && IsSign(s[0]) then 1 else 0;
    var neg := s != [] && s[0] == '-' as int;
    var (m, j) := DecimalDigits(s, i, Mant(0, 0, 0, false), false);
    var (n, k) := if j < |s| && s[j] == '.' as int then DecimalDigits(s, j + 1, m, true) else (m, j);
    var hasExp := k < |s| && IsE(s[k]);
    var e := if n.mant == 0 then 0 else n.e + if hasExp then ExpValue(s, k + 1) else 0;
    var dec: int := n.mant;
    Num(conv(n.mant, e, neg), if neg then 0 - dec else dec, if -2 <= e <= 0 then -e else 0,
        !hasExp && !n.truncated && -2 <= e <= 0 && n.mant < 0x8000_0000)
  }

  // ---- the scanner ---------------------------------------------------------------------------

  /** Arguments of a command; -1 for a byte that is no command. */
  function Nargs(c: Byte): (n: int)
    ensures -1 <= n <= 7
  {
    var u := if 'a' as int <= c <= 'z' as int then c - 32 else c as int;
    if u == 'M' as int || u == 'L' as int || u == 'T' as int then 2
    else if u == 'H' as int || u == 'V' as int then 1
    else if u == 'C' as int then 6
    else if u == 'S' as int || u == 'Q' as int then 4
    else if u == 'A' as int then 7
    else if u == 'Z' as int then 0
    else -1
  }

  /** What the scanner tells its sink. */
  datatype Tok = Cmd(c: Byte) | Arg(num: Num)

  /** path_scanner_t; cmd 0 is no command yet. */
  datatype Scan = Scan(cmd: Byte, argi: nat, num: seq<Byte>, inNum: bool, hasDot: bool, hasExp: bool, prevExp: bool, error: bool)

  function Start(): Scan {
    Scan(0, 0, [], false, false, false, false, false)
  }

  function Fail(s: Scan): Scan {
    s.(error := true)
  }

  /** scan_number_done: the pending number becomes an argument, of a repeated command if need be. */
  function NumberDone(conv: Conv, s: Scan): (r: (Scan, seq<Tok>)) {
    if !s.inNum then (s, [])
    else
      var t := s.(inNum := false);
      if t.cmd == 0 || Nargs(t.cmd) <= 0 then (Fail(t), [])
      else if t.hasExp && !t.prevExp then (Fail(t), [])
      else if t.argi >= Nargs(t.cmd) then
        var c := if t.cmd == 'M' as int then 'L' as int else if t.cmd == 'm' as int then 'l' as int else t.cmd;
        (t.(cmd := c, argi := 1), [Cmd(c), Arg(Parse(conv, t.num))])
      else (t.(argi := t.argi + 1), [Arg(Parse(conv, t.num))])
  }

  function NumberBegin(s: Scan, c: Byte): Scan {
    s.(inNum := true, num := [c], hasDot := c == '.' as int, hasExp := false, prevExp := false)
  }

  function NumberPush(s: Scan, c: Byte): Scan {
    if |s.num| < NUM_BYTES then s.(num := s.num + [c]) else s
  }

  /** The byte continues the number being read. */
  function Continued(s: Scan, c: Byte): Option<Scan> {
    var last := if s.num == [] then 0 else s.num[|s.num| - 1];
    if IsDigit(c) then Some(NumberPush(s, c).(prevExp := s.prevExp || s.hasExp))
    else if c == '.' as int && !s.hasDot && !s.hasExp then Some(NumberPush(s.(hasDot := true), c))
    else if IsE(c) && !s.hasExp && IsDigit(last) then Some(NumberPush(s.(hasExp := true), c))
    else if IsSign(c) && s.hasExp && !s.prevExp && IsE(last) then Some(NumberPush(s, c))
    else None
  }

  predicate FlagSlot(s: Scan) {
    (s.cmd == 'A' as int || s.cmd == 'a' as int) && (s.argi == 3 || s.argi == 4)
  }

  /** A byte that starts a token: a separator, a number, or a command letter. */
  function Fresh(conv: Conv, s: Scan, c: Byte, polygon: bool): (Scan, seq<Tok>) {
    if IsSeparator(c) then (s, [])
    else if IsDigit(c) || c == '.' as int || IsSign(c) then
      var b := NumberBegin(s, c);
      if FlagSlot(s) && (c == '0' as int || c == '1' as int) then NumberDone(conv, b) else (b, [])
    else if polygon || Nargs(c) < 0 then (Fail(s), [])
    else if s.cmd != 0 && s.argi != 0 && s.argi < Nargs(s.cmd) then (Fail(s), [])
    else if s.cmd != 0 && s.argi == 0 && Nargs(s.cmd) > 0 then (Fail(s), [])
    else (s.(cmd := c, argi := 0), [Cmd(c)])
  }

  function Step(conv: Conv, s: Scan, c: Byte, polygon: bool): (Scan, seq<Tok>) {
    if s.error then (s, [])
    else if s.inNum then
      if Continued(s, c).Some? then (Continued(s, c).value, [])
      else
        var (d, toks) := NumberDone(conv, s);
        if d.error then (d, toks)
        else var (f, more) := Fresh(conv, d, c, polygon); (f, toks + more)
    else Fresh(conv, s, c, polygon)
  }

  /** A points attribute starts with an implicit M. */
  function Begin(s: Scan, polygon: bool): (Scan, seq<Tok>) {
    if !s.error && polygon && s.cmd == 0 then (s.(cmd := 'M' as int, argi := 0), [Cmd('M' as int)]) else (s, [])
  }

  function Run(conv: Conv, s: Scan, text: seq<Byte>, polygon: bool): (Scan, seq<Tok>)
    decreases |text|
  {
    if text == [] then (s, [])
    else
      var (t, toks) := Step(conv, s, text[0], polygon);
      var (u, more) := Run(conv, t, text[1..], polygon);
      (u, toks + more)
  }

  function Feed(conv: Conv, s: Scan, text: seq<Byte>, polygon: bool): (Scan, seq<Tok>) {
    var (b, first) := Begin(s, polygon);
    var (t, toks) := Run(conv, b, text, polygon);
    (t, first + toks)
  }

  /** scan_finish: flush the last number, then refuse a path that stops inside a group. */
  function FinishScan(conv: Conv, s: Scan, polygon: bool): (r: (Scan, seq<Tok>))
  {
    if s.error then (s, [])
    else
      var (d, toks) := NumberDone(conv, s);
      if !d.error && d.cmd != 0 && d.argi != 0 && d.argi < Nargs(d.cmd) && !polygon then (Fail(d), toks) else (d, toks)
  }

  // ---- the shape of the token stream ---------------------------------------------------------

  /** One command instance and the arguments it has so far. */
  datatype Group = Group(cmd: Byte, nums: seq<Num>)

  predicate Complete(g: Group) {
    |g.nums| == Nargs(g.cmd)
  }

  /** Whole groups, but for the last, which has as many arguments as the scanner has counted; the
      text of its last argument is still in the scanner's buffer. */
  ghost predicate Shaped(conv: Conv, s: Scan, gs: seq<Group>) {
    && (forall i :: 0 <= i < |gs| ==> Nargs(gs[i].cmd) >= |gs[i].nums|)
    && (forall i :: 0 <= i < |gs| - 1 ==> Complete(gs[i]))
    && (s.cmd == 0 <==> gs == [])
    && (gs == [] ==> s.argi == 0)
    && (gs != [] ==> gs[|gs| - 1].cmd == s.cmd && |gs[|gs| - 1].nums| == s.argi)
    && (!s.error && !s.inNum && s.argi > 0 ==> gs[|gs| - 1].nums[s.argi - 1] == Parse(conv, s.num))
  }

  /** The groups after one more token. */
  function Grow(gs: seq<Group>, t: Tok): seq<Group> {
    if t.Cmd? then gs + [Group(t.c, [])]
    else if gs == [] then gs
    else
      var g := gs[|gs| - 1];
      gs[..|gs| - 1] + [g.(nums := g.nums + [t.num])]
  }

  function GrowAll(gs: seq<Group>, toks: seq<Tok>): seq<Group> {
    if toks == [] then gs else Grow(GrowAll(gs, toks[..|toks| - 1]), toks[|toks| - 1])
  }

  lemma {:induction false} GrowJoin(gs: seq<Group>, a: seq<Tok>, b: seq<Tok>)
    ensures GrowAll(gs, a + b) == GrowAll(GrowAll(gs, a), b)
  {
    if b == [] {
      assert a + b == a;
    } else {
      GrowJoin(gs, a, b[..|b| - 1]);
      assert (a + b)[..|a + b| - 1] == a + b[..|b| - 1];
    }
  }

  lemma GrowNone(gs: seq<Group>)
    ensures GrowAll(gs, []) == gs
  {
  }

  lemma {:induction false} GrowOne(gs: seq<Group>, t: Tok)
    ensures GrowAll(gs, [t]) == Grow(gs, t)
  {
    assert [t][..0] == [];
  }

  /** A command letter starts a group once the one before it is whole. */
  lemma {:induction false} CmdShaped(conv: Conv, s: Scan, gs: seq<Group>, c: Byte, t: Scan)
    requires Shaped(conv, s, gs) && Nargs(c) >= 0 && c != 0
    requires s.cmd == 0 || s.argi == Nargs(s.cmd)
    requires t.cmd == c && t.argi == 0
    ensures Shaped(conv, t, Grow(gs, Cmd(c)))
  {
    hide Nargs, Parse;
  }

  lemma {:induction false} ArgShaped(conv: Conv, s: Scan, gs: seq<Group>, t: Scan)
    requires Shaped(conv, s, gs) && s.cmd != 0 && s.argi < Nargs(s.cmd)
    requires t.cmd == s.cmd && t.argi == s.argi + 1 && t.num == s.num
    ensures Shaped(conv, t, Grow(gs, Arg(Parse(conv, s.num))))
  {
  }

  lemma {:induction false} SameShaped(conv: Conv, s: Scan, gs: seq<Group>, t: Scan)
    requires Shaped(conv, s, gs) && t.cmd == s.cmd && t.argi == s.argi
    requires t.error || t.inNum || (!s.error && !s.inNum && t.num == s.num)
    ensures Shaped(conv, t, gs)
  {
  }

  lemma {:induction false} NumberDoneShaped(conv: Conv, s: Scan, gs: seq<Group>)
    requires Shaped(conv, s, gs) && !s.error
    ensures var (t, toks) := NumberDone(conv, s);
            Shaped(conv, t, GrowAll(gs, toks)) && !t.inNum && (t.error ==> toks == [])
    ensures var (t, toks) := NumberDone(conv, s); s.inNum && !t.error ==> t.argi > 0
  {
    hide Shaped, Parse;
    var (t, toks) := NumberDone(conv, s);
    var u := s.(inNum := false);
    if !s.inNum {
    } else if t.error {
      SameShaped(conv, s, gs, t);
    } else if u.argi >= Nargs(u.cmd) {
      var c := t.cmd;
      CmdShaped(conv, s.(argi := u.argi), gs, c, s.(cmd := c, argi := 0)) by { ArgiBound(conv, s, gs); }
      var hs := Grow(gs, Cmd(c));
      ArgShaped(conv, s.(cmd := c, argi := 0), hs, t);
      assert toks[..1] == [Cmd(c)];
      GrowOne(gs, Cmd(c));
    } else {
      ArgShaped(conv, s, gs, t);
      GrowOne(gs, Arg(Parse(conv, s.num)));
    }
  }

  lemma {:induction false} ArgiBound(conv: Conv, s: Scan, gs: seq<Group>)
    requires Shaped(conv, s, gs) && s.cmd != 0
    ensures s.argi <= Nargs(s.cmd)
  {
  }

  lemma {:induction false} FreshShaped(conv: Conv, s: Scan, gs: seq<Group>, c: Byte, polygon: bool)
    requires Shaped(conv, s, gs) && !s.error && !s.inNum
    ensures var (t, toks) := Fresh(conv, s, c, polygon); Shaped(conv, t, GrowAll(gs, toks))
  {
    hide Shaped, Parse, NumberDone;
    var (t, toks) := Fresh(conv, s, c, polygon);
    if IsSeparator(c) {
    } else if IsDigit(c) || c == '.' as int || IsSign(c) {
      SameShaped(conv, s, gs, NumberBegin(s, c));
      NumberDoneShaped(conv, NumberBegin(s, c), gs);
    } else if t.error {
      SameShaped(conv, s, gs, t);
    } else {
      if s.cmd != 0 { ArgiBound(conv, s, gs); }
      CmdShaped(conv, s, gs, c, t);
      GrowOne(gs, Cmd(c));
    }
  }

  lemma {:induction false} StepShaped(conv: Conv, s: Scan, gs: seq<Group>, c: Byte, polygon: bool)
    requires Shaped(conv, s, gs)
    ensures var (t, toks) := Step(conv, s, c, polygon); Shaped(conv, t, GrowAll(gs, toks))
  {
    hide Shaped, Parse, NumberDone, Fresh;
    if s.error {
    } else if s.inNum {
      if Continued(s, c).Some? {
        SameShaped(conv, s, gs, Continued(s, c).value);
      } else {
        var (d, toks) := NumberDone(conv, s);
        NumberDoneShaped(conv, s, gs);
        if !d.error {
          FreshShaped(conv, d, GrowAll(gs, toks), c, polygon);
          GrowJoin(gs, toks, Fresh(conv, d, c, polygon).1);
        }
      }
    } else {
      FreshShaped(conv, s, gs, c, polygon);
    }
  }

  lemma {:induction false} BeginShaped(conv: Conv, s: Scan, gs: seq<Group>, polygon: bool)
    requires Shaped(conv, s, gs)
    ensures var (t, toks) := Begin(s, polygon); Shaped(conv, t, GrowAll(gs, toks))
  {
    hide Shaped;
    var (t, toks) := Begin(s, polygon);
    if toks != [] {
      CmdShaped(conv, s, gs, 'M' as int, t);
      GrowOne(gs, Cmd('M' as int));
    }
  }

  /** However long the text, the tokens told so far are whole commands and at most one begun. */
  lemma {:induction false} RunShaped(conv: Conv, s: Scan, gs: seq<Group>, text: seq<Byte>, polygon: bool)
    requires Shaped(conv, s, gs)
    ensures var (t, toks) := Run(conv, s, text, polygon); Shaped(conv, t, GrowAll(gs, toks))
    decreases |text|
  {
    hide Shaped, Step;
    if text != [] {
      var (t, toks) := Step(conv, s, text[0], polygon);
      StepShaped(conv, s, gs, text[0], polygon);
      RunShaped(conv, t, GrowAll(gs, toks), text[1..], polygon);
      GrowJoin(gs, toks, Run(conv, t, text[1..], polygon).1);
    }
  }
}
