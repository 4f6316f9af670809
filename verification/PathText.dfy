/** What path text means: a list of commands written out, with any separators and as many left out as
    the next byte allows, scans to exactly those commands, an argument list that goes on repeating its
    command. */
module PathText {
  import opened Prelude
  import opened Path
  import opened PathNumber
  import opened PathReplay
  import R = PathRecord

  // ---- one number, byte by byte --------------------------------------------------------------

  /** A number the scanner reads in one piece: its text fits the buffer, and an exponent follows a digit. */
  predicate Scannable(n: NumText) {
    NumOk(n) && |Text(n)| <= NUM_BYTES && (n.exp.Some? && n.dot ==> n.frac != [])
  }

  /** The scanner i bytes into a number. */
  function Into(s: Scan, n: NumText, i: nat): Scan
    requires i <= |Text(n)|
  {
    s.(inNum := true, num := Text(n)[..i], hasDot := n.dot && i > FracAt(n), hasExp := n.exp.Some? && i > ExpAt(n),
       prevExp := n.exp.Some? && i > ExpAt(n) + 1 + |SignText(n.exp.value.sign)|)
  }

  lemma {:induction false} ByteAt(n: NumText, i: nat)
    requires NumOk(n) && i < |Text(n)|
    ensures var c := Text(n)[i];
            && (i < WholeAt(n) ==> IsSign(c)) && (WholeAt(n) <= i < FracAt(n) ==> IsDigit(c))
            && (FracAt(n) <= i < ExpAt(n) ==> n.dot) && (n.dot && i == FracAt(n) ==> c == '.' as int)
            && (FracAt(n) < i < ExpAt(n) ==> IsDigit(c))
            && (i >= ExpAt(n) ==> n.exp.Some? && IsE(Text(n)[ExpAt(n)]))
            && (n.exp.Some? && ExpAt(n) < i <= ExpAt(n) + |SignText(n.exp.value.sign)| ==> IsSign(c))
            && (n.exp.Some? && i > ExpAt(n) + |SignText(n.exp.value.sign)| ==> IsDigit(c))
  {
    hide Text, WholeAt, FracAt, ExpAt, FracText, ExpPart, SignText;
    Places(n);
    SignPlace(n);
    var s, a, b, c := Text(n), WholeAt(n), FracAt(n), ExpAt(n);
    if a <= i < b { assert s[a..b][i - a] == s[i]; }
    if b < i < c { assert s[b + 1..c][i - b - 1] == s[i]; }
    if i > c {
      var g, d := SignText(n.exp.value.sign), n.exp.value.digits;
      assert s[c + 1..] == g + d;
      assert s[c + 1..][i - c - 1] == s[i];
      if i <= c + |g| { SignByte(n.exp.value.sign); assert s[i] == g[i - c - 1]; } else { assert s[i] == d[i - c - 1 - |g|]; }
    }
  }

  lemma SignByte(s: Sign)
    ensures forall i :: 0 <= i < |SignText(s)| ==> IsSign(SignText(s)[i])
  {
  }

  /** The byte before an exponent's e is a digit. */
  lemma {:induction false} BeforeExp(n: NumText)
    requires Scannable(n) && n.exp.Some?
    ensures 0 < ExpAt(n) < |Text(n)| && IsDigit(Text(n)[ExpAt(n) - 1])
  {
    Places(n);
    if n.dot { ByteAt(n, ExpAt(n) - 1); } else { ByteAt(n, ExpAt(n) - 1); }
  }

  lemma {:induction false} ByteContinues(s: Scan, n: NumText, i: nat)
    requires Scannable(n) && 0 < i < |Text(n)|
    ensures Continued(Into(s, n, i), Text(n)[i]) == Some(Into(s, n, i + 1))
  {
    hide Text, WholeAt, FracAt, ExpAt, FracText, ExpPart, SignText, NumOk;
    assert NumOk(n) && (n.exp.Some? ==> 0 < ExpAt(n) && (i == ExpAt(n) ==> IsDigit(Text(n)[i - 1]))) by {
      if n.exp.Some? { BeforeExp(n); }
    }
    ByteAt(n, i);
    Ordered(n);
    assert Text(n)[..i + 1] == Text(n)[..i] + [Text(n)[i]];
    assert Text(n)[..i][i - 1] == Text(n)[i - 1];
  }

  lemma Ordered(n: NumText)
    requires NumOk(n)
    ensures WholeAt(n) <= 1 && WholeAt(n) <= FracAt(n) <= ExpAt(n) <= |Text(n)| && (n.dot ==> FracAt(n) < ExpAt(n)) && (!n.dot ==> FracAt(n) == ExpAt(n))
  {
    hide Text;
    Places(n);
  }

  lemma {:induction false} ByteTaken(conv: Conv, s: Scan, n: NumText, i: nat, polygon: bool)
    requires Scannable(n) && 0 < i < |Text(n)| && !s.error
    ensures Step(conv, Into(s, n, i), Text(n)[i], polygon) == (Into(s, n, i + 1), [])
  {
    hide Continued, NumberDone, Fresh, Scannable, Text, FracAt, ExpAt;
    ByteContinues(s, n, i);
  }

  lemma {:induction false} RunOn(conv: Conv, s: Scan, t: seq<Byte>, u: Scan, polygon: bool)
    requires t != [] && Step(conv, s, t[0], polygon) == (u, [])
    ensures Run(conv, s, t, polygon) == Run(conv, u, t[1..], polygon)
  {
    hide Step;
    var none: seq<Tok> := [];
    assert none + Run(conv, u, t[1..], polygon).1 == Run(conv, u, t[1..], polygon).1;
  }

  /** How a number begins. */
  lemma {:induction false} FirstByte(n: NumText)
    requires Scannable(n) && Text(n) != []
    ensures var c := Text(n)[0];
            && (IsDigit(c) || IsSign(c) || c == '.' as int)
            && (n.dot && 1 > FracAt(n) <==> c == '.' as int) && !(n.exp.Some? && 1 > ExpAt(n))
  {
    hide Text, WholeAt, FracAt, ExpAt, FracText, ExpPart, SignText;
    ByteAt(n, 0);
    Places(n);
    SignPlace(n);
    if n.exp.Some? { BeforeExp(n); }
  }

  lemma {:induction false} FirstTaken(conv: Conv, s: Scan, n: NumText, polygon: bool)
    requires Scannable(n) && !s.error && !s.inNum && Text(n) != []
    requires FlagSlot(s) ==> Text(n)[0] != '0' as int && Text(n)[0] != '1' as int
    ensures Step(conv, s, Text(n)[0], polygon) == (Into(s, n, 1), [])
  {
    hide Text, WholeAt, FracAt, ExpAt, FracText, ExpPart, SignText, NumberDone;
    FirstByte(n);
    assert Text(n)[..1] == [Text(n)[0]];
  }

  lemma {:induction false} RestTaken(conv: Conv, s: Scan, n: NumText, i: nat, polygon: bool)
    requires Scannable(n) && 0 < i <= |Text(n)| && !s.error
    ensures Run(conv, Into(s, n, i), Text(n)[i..], polygon) == (Into(s, n, |Text(n)|), [])
    decreases |Text(n)| - i
  {
    hide Step, Into, Text;
    if i < |Text(n)| {
      ByteTaken(conv, s, n, i, polygon);
      assert Text(n)[i..][1..] == Text(n)[i + 1..] && Text(n)[i..][0] == Text(n)[i];
      RunOn(conv, Into(s, n, i), Text(n)[i..], Into(s, n, i + 1), polygon);
      RestTaken(conv, s, n, i + 1, polygon);
    } else {
      assert Text(n)[i..] == [];
    }
  }

  /** A whole number is in the buffer. */
  lemma {:induction false} NumberTaken(conv: Conv, s: Scan, n: NumText, polygon: bool)
    requires Scannable(n) && !s.error && !s.inNum && Text(n) != []
    requires FlagSlot(s) ==> Text(n)[0] != '0' as int && Text(n)[0] != '1' as int
    ensures Run(conv, s, Text(n), polygon) == (Into(s, n, |Text(n)|), [])
  {
    hide Step, Into, Text;
    FirstTaken(conv, s, n, polygon);
    RunOn(conv, s, Text(n), Into(s, n, 1), polygon);
    RestTaken(conv, s, n, 1, polygon);
  }

  // ---- where a number ends -------------------------------------------------------------------

  /** c cannot be part of the number before it. */
  predicate Ends(n: NumText, c: Byte) {
    !IsDigit(c) && !IsE(c) && (c == '.' as int ==> n.dot || n.exp.Some?)
  }

  /** The scanner at the end of number n. */
  predicate Holds(s: Scan, n: NumText) {
    && s.inNum && s.num == Text(n) && s.hasDot == n.dot && s.hasExp == n.exp.Some? && s.prevExp == n.exp.Some?
  }

  lemma {:induction false} IntoHolds(s: Scan, n: NumText)
    requires NumOk(n)
    ensures Text(n) != [] && Holds(Into(s, n, |Text(n)|), n)
  {
    Places(n);
    SignPlace(n);
    assert Text(n)[..|Text(n)|] == Text(n);
    if n.exp.Some? { assert |Text(n)| == ExpAt(n) + 1 + |SignText(n.exp.value.sign) + n.exp.value.digits|; }
    if n.dot { assert FracAt(n) < |Text(n)|; }
  }

  lemma {:induction false} EndsThere(s: Scan, n: NumText, c: Byte)
    requires Holds(s, n) && Ends(n, c)
    ensures Continued(s, c) == None
  {
    hide Text;
  }

  /** A byte that ends the pending number finds the scanner as if the number had been done with before. */
  lemma {:induction false} Settles(conv: Conv, s: Scan, t: seq<Byte>, polygon: bool)
    requires t != [] && !s.error && (s.inNum ==> Continued(s, t[0]) == None) && !NumberDone(conv, s).0.error
    ensures var (d, a) := NumberDone(conv, s);
            Run(conv, s, t, polygon) == (Run(conv, d, t, polygon).0, a + Run(conv, d, t, polygon).1)
  {
    hide NumberDone, Fresh, Continued;
    var (d, a) := NumberDone(conv, s);
    DoneClears(conv, s);
    if s.inNum {
      var (f, more) := Fresh(conv, d, t[0], polygon);
      var rest := Run(conv, f, t[1..], polygon).1;
      assert a + more + rest == a + (more + rest);
    } else {
      assert a + Run(conv, d, t, polygon).1 == Run(conv, d, t, polygon).1;
    }
  }

  lemma DoneClears(conv: Conv, s: Scan)
    ensures var (d, a) := NumberDone(conv, s); !d.inNum && (!s.inNum ==> d == s && a == [])
  {
    hide Parse;
  }

  // ---- pieces of text ------------------------------------------------------------------------

  predicate GapOk(g: seq<Byte>) { forall i :: 0 <= i < |g| ==> IsSeparator(g[i]) }

  /** An argument and the separators before it. */
  datatype Argument = Argument(gap: seq<Byte>, n: NumText)

  /** A command: its letter and its groups of arguments, each a repetition of the command. */
  datatype Command = Command(gap: seq<Byte>, letter: Byte, groups: seq<seq<Argument>>)

  function ArgText(a: Argument): seq<Byte> { a.gap + Text(a.n) }

  function ArgsText(args: seq<Argument>): seq<Byte> {
    if args == [] then [] else ArgsText(args[..|args| - 1]) + ArgText(args[|args| - 1])
  }

  function GroupsText(groups: seq<seq<Argument>>): seq<Byte> {
    if groups == [] then [] else GroupsText(groups[..|groups| - 1]) + ArgsText(groups[|groups| - 1])
  }

  function CommandText(c: Command): seq<Byte> { c.gap + [c.letter] + GroupsText(c.groups) }

  function CommandsText(cs: seq<Command>): seq<Byte> {
    if cs == [] then [] else CommandsText(cs[..|cs| - 1]) + CommandText(cs[|cs| - 1])
  }

  /** The letters and how many arguments each takes, and what separates arguments. */
  lemma Alphabet(c: Byte)
    ensures Nargs(c) == 7 <==> c as char in "Aa"
    ensures Nargs(c) == 6 <==> c as char in "Cc"
    ensures Nargs(c) == 4 <==> c as char in "QqSs"
    ensures Nargs(c) == 2 <==> c as char in "LlMmTt"
    ensures Nargs(c) == 1 <==> c as char in "HhVv"
    ensures Nargs(c) == 0 <==> c as char in "Zz"
    ensures IsSeparator(c) <==> c as char in " ,\t\n\r" || c == 11 || c == 12
  {
  }

  // ---- what may be written -------------------------------------------------------------------

  /** The fourth and fifth argument of an arc are flags. */
  predicate IsFlag(letter: Byte, i: nat) { (letter == 'A' as int || letter == 'a' as int) && (i == 3 || i == 4) }

  predicate FlagText(n: NumText) { Text(n) == ['0' as int] || Text(n) == ['1' as int] }

  /** Argument i of a group, after number `before` if that could run on. */
  predicate ArgOk(letter: Byte, i: nat, a: Argument, before: Option<NumText>) {
    && Scannable(a.n) && GapOk(a.gap) && (IsFlag(letter, i) ==> FlagText(a.n))
    && (before.Some? ==> ArgText(a) != [] && Ends(before.value, ArgText(a)[0]))
  }

  /** The number a byte after these arguments would run on from: the last, unless it is a flag. */
  function TailOf(letter: Byte, args: seq<Argument>, before: Option<NumText>): Option<NumText> {
    if args == [] then before else if IsFlag(letter, |args| - 1) then None else Some(args[|args| - 1].n)
  }

  predicate ArgsOk(letter: Byte, args: seq<Argument>, before: Option<NumText>) {
    forall i :: 0 <= i < |args| ==> ArgOk(letter, i, args[i], TailOf(letter, args[..i], before))
  }

  /** The number before group j. */
  function GroupTail(letter: Byte, groups: seq<seq<Argument>>, j: nat): Option<NumText>
    requires j <= |groups|
  {
    if j == 0 then None else TailOf(letter, groups[j - 1], None)
  }

  predicate GroupsOk(letter: Byte, groups: seq<seq<Argument>>) {
    forall j :: 0 <= j < |groups| ==> |groups[j]| == Nargs(letter) && ArgsOk(letter, groups[j], GroupTail(letter, groups, j))
  }

  /** A letter without arguments stands alone, any other has at least one group. */
  predicate CommandOk(c: Command) {
    && GapOk(c.gap) && Nargs(c.letter) >= 0 && GroupsOk(c.letter, c.groups)
    && (c.groups == [] <==> Nargs(c.letter) == 0)
  }

  // ---- what it means -------------------------------------------------------------------------

  function Values(conv: Conv, args: seq<Argument>): (v: seq<Num>)
    ensures |v| == |args|
  {
    seq(|args|, i requires 0 <= i < |args| => Parse(conv, Text(args[i].n)))
  }

  /** A repeated move is a line. */
  function Repeated(letter: Byte, j: nat): Byte {
    if j == 0 then letter else if letter == 'M' as int then 'L' as int else if letter == 'm' as int then 'l' as int else letter
  }

  function GroupsMeaning(conv: Conv, letter: Byte, groups: seq<seq<Argument>>): (gs: seq<Group>)
    ensures |gs| == |groups|
  {
    seq(|groups|, j requires 0 <= j < |groups| => Group(Repeated(letter, j), Values(conv, groups[j])))
  }

  function Meaning(conv: Conv, cs: seq<Command>): seq<Group> {
    if cs == [] then []
    else
      var c := cs[|cs| - 1];
      Meaning(conv, cs[..|cs| - 1]) + if c.groups == [] then [Group(c.letter, [])] else GroupsMeaning(conv, c.letter, c.groups)
  }

  // ---- scanning it ---------------------------------------------------------------------------

  /** Between numbers the scanner knows the last group's command and how many arguments it has. */
  predicate At(d: Scan, gs: seq<Group>) {
    && !d.error && !d.inNum
    && (if gs == [] then d.cmd == 0 && d.argi == 0
        else d.cmd == gs[|gs| - 1].cmd && d.cmd != 0 && d.argi == |gs[|gs| - 1].nums|)
  }

  /** From b and the groups so far, the text leads to gs, with d the scanner once a number that is still
      pending, at most `tail`, is done with. */
  ghost predicate Reached(conv: Conv, polygon: bool, b: Scan, so: seq<Group>, text: seq<Byte>, d: Scan, gs: seq<Group>,
                          tail: Option<NumText>) {
    var (s, a) := Run(conv, b, text, polygon);
    var (u, m) := NumberDone(conv, s);
    && !s.error && u == d && At(d, gs) && GrowAll(so, a + m) == gs && (s.inNum ==> tail.Some? && Holds(s, tail.value))
  }

  /** A piece that does not run on from the number before it. */
  ghost predicate Apart(tail: Option<NumText>, piece: seq<Byte>) {
    piece != [] && (tail.Some? ==> Ends(tail.value, piece[0]))
  }

  lemma {:induction false} ReachedNothing(conv: Conv, polygon: bool, d: Scan, gs: seq<Group>)
    requires At(d, gs)
    ensures Reached(conv, polygon, d, gs, [], d, gs, None)
  {
    hide Parse, At;
    assert !d.error && !d.inNum by { AtCalm(d, gs); }
    var none: seq<Tok> := [];
    assert none + none == none;
    GrowNone(gs);
  }

  lemma AtCalm(d: Scan, gs: seq<Group>)
    requires At(d, gs)
    ensures !d.error && !d.inNum
  {
  }

  /** Text after text. */
  lemma {:induction false} ReachedMore(conv: Conv, polygon: bool, b: Scan, so: seq<Group>, text: seq<Byte>, d: Scan, gs: seq<Group>,
                                       tail: Option<NumText>, piece: seq<Byte>, d': Scan, gs': seq<Group>, tail': Option<NumText>)
    requires Reached(conv, polygon, b, so, text, d, gs, tail) && Apart(tail, piece)
    requires Reached(conv, polygon, d, gs, piece, d', gs', tail')
    ensures Reached(conv, polygon, b, so, text + piece, d', gs', tail')
  {
    hide NumberDone, Holds, Ends, Continued, At, Run;
    AtCalm(d, gs);
    var (s, a) := Run(conv, b, text, polygon);
    var m := NumberDone(conv, s).1;
    var (s', a') := Run(conv, d, piece, polygon);
    var m' := NumberDone(conv, s').1;
    if s.inNum { EndsThere(s, tail.value, piece[0]); }
    Settles(conv, s, piece, polygon);
    RunJoin(conv, b, text, piece, polygon);
    assert a + (m + a') + m' == (a + m) + (a' + m');
    GrowJoin(so, a + m, a' + m');
  }

  lemma {:induction false} GapSkipped(conv: Conv, d: Scan, g: seq<Byte>, t: seq<Byte>, polygon: bool)
    requires GapOk(g) && !d.error && !d.inNum
    ensures Run(conv, d, g + t, polygon) == Run(conv, d, t, polygon)
    decreases |g|
  {
    if g == [] {
      assert g + t == t;
    } else {
      RunOn(conv, d, g + t, d, polygon);
      assert (g + t)[1..] == g[1..] + t;
      GapSkipped(conv, d, g[1..], t, polygon);
    }
  }

  /** The groups after one more argument: a full last group is repeated. */
  function WithArg(gs: seq<Group>, v: Num): seq<Group>
    requires gs != []
  {
    var g := gs[|gs| - 1];
    if |g.nums| >= Nargs(g.cmd) then gs + [Group(Repeated(g.cmd, 1), [v])]
    else gs[..|gs| - 1] + [g.(nums := g.nums + [v])]
  }

  lemma {:induction false} RepeatGrows(gs: seq<Group>, c: Byte, v: Num)
    ensures GrowAll(gs, [Cmd(c), Arg(v)]) == gs + [Group(c, [v])]
  {
    var hs := gs + [Group(c, [])];
    assert [Cmd(c), Arg(v)] == [Cmd(c)] + [Arg(v)];
    GrowJoin(gs, [Cmd(c)], [Arg(v)]);
    GrowOne(gs, Cmd(c));
    GrowOne(hs, Arg(v));
    assert hs[..|gs|] == gs && hs[|gs|].nums + [v] == [v];
  }

  lemma {:induction false} DoneAdds(conv: Conv, d: Scan, gs: seq<Group>, s: Scan, n: NumText)
    requires At(d, gs) && gs != [] && Nargs(d.cmd) > 0 && Holds(s, n) && s.cmd == d.cmd && s.argi == d.argi && !s.error
    ensures var (u, m) := NumberDone(conv, s);
            At(u, WithArg(gs, Parse(conv, Text(n)))) && GrowAll(gs, m) == WithArg(gs, Parse(conv, Text(n)))
  {
    hide Parse, Text;
    var v := Parse(conv, Text(n));
    if s.argi >= Nargs(s.cmd) {
      RepeatGrows(gs, Repeated(s.cmd, 1), v);
    } else {
      GrowOne(gs, Arg(v));
    }
  }

  lemma {:induction false} PlainRead(conv: Conv, polygon: bool, d: Scan, gs: seq<Group>, a: Argument) returns (d': Scan)
    requires At(d, gs) && gs != [] && Nargs(d.cmd) > 0 && Scannable(a.n) && GapOk(a.gap) && !FlagSlot(d)
    ensures Reached(conv, polygon, d, gs, ArgText(a), d', WithArg(gs, Parse(conv, Text(a.n))), Some(a.n))
  {
    hide Text, NumberDone, At, Holds, Run, GapOk, NumOk;
    AtCalm(d, gs);
    IntoHolds(d, a.n);
    GapSkipped(conv, d, a.gap, Text(a.n), polygon);
    NumberTaken(conv, d, a.n, polygon);
    var s := Into(d, a.n, |Text(a.n)|);
    DoneAdds(conv, d, gs, s, a.n);
    d' := NumberDone(conv, s).0;
    assert [] + NumberDone(conv, s).1 == NumberDone(conv, s).1;
  }

  lemma {:induction false} FlagRead(conv: Conv, polygon: bool, d: Scan, gs: seq<Group>, a: Argument) returns (d': Scan)
    requires At(d, gs) && gs != [] && Nargs(d.cmd) > 0 && GapOk(a.gap) && FlagSlot(d) && FlagText(a.n) && NumOk(a.n)
    ensures Reached(conv, polygon, d, gs, ArgText(a), d', WithArg(gs, Parse(conv, Text(a.n))), None)
  {
    AtCalm(d, gs);
    var c := Text(a.n)[0];
    var s := NumberBegin(d, c);
    FlagPlain(a.n);
    hide Text, Parse, At, GapOk, NumOk, WithArg;
    assert Text(a.n) == [c];
    GapSkipped(conv, d, a.gap, [c], polygon);
    DoneAdds(conv, d, gs, s, a.n);
    var m := NumberDone(conv, s).1;
    d' := NumberDone(conv, s).0;
    FlagStep(conv, d, c, polygon);
    assert At(d', WithArg(gs, Parse(conv, Text(a.n))));
    AtCalm(d', WithArg(gs, Parse(conv, Text(a.n))));
    DoneClears(conv, d');
    assert m + [] == m;
  }

  lemma {:induction false} FlagPlain(n: NumText)
    requires NumOk(n) && FlagText(n)
    ensures !n.dot && n.exp == None
  {
    Places(n);
    SignPlace(n);
    if n.exp.Some? { ByteAt(n, ExpAt(n)); }
    if n.dot { ByteAt(n, FracAt(n)); }
  }

  lemma {:induction false} FlagStep(conv: Conv, d: Scan, c: Byte, polygon: bool)
    requires !d.error && !d.inNum && FlagSlot(d) && (c == '0' as int || c == '1' as int)
    ensures Run(conv, d, [c], polygon) == NumberDone(conv, NumberBegin(d, c))
  {
    hide Parse, NumberDone;
    assert [c][1..] == [];
    var toks := NumberDone(conv, NumberBegin(d, c)).1;
    assert toks + [] == toks;
  }

  lemma {:induction false} ArgRead(conv: Conv, polygon: bool, b: Scan, so: seq<Group>, text: seq<Byte>, d: Scan, gs: seq<Group>,
                                   tail: Option<NumText>, letter: Byte, i: nat, a: Argument) returns (d': Scan)
    requires Reached(conv, polygon, b, so, text, d, gs, tail) && ArgOk(letter, i, a, tail)
    requires gs != [] && Nargs(d.cmd) > 0 && (IsFlag(letter, i) <==> FlagSlot(d))
    ensures Reached(conv, polygon, b, so, text + ArgText(a), d', WithArg(gs, Parse(conv, Text(a.n))), if IsFlag(letter, i) then None else Some(a.n))
  {
    hide Run, NumberDone, Text, Parse, Holds, Ends, NumOk, WithArg, GapOk, FlagText;
    var v := Parse(conv, Text(a.n));
    assert ArgText(a) != [] by { IntoHolds(d, a.n); }
    if FlagSlot(d) { d' := FlagRead(conv, polygon, d, gs, a); } else { d' := PlainRead(conv, polygon, d, gs, a); }
    ReachedMore(conv, polygon, b, so, text, d, gs, tail, ArgText(a), d', WithArg(gs, v), if IsFlag(letter, i) then None else Some(a.n));
  }

  lemma ReachedIs(conv: Conv, polygon: bool, b: Scan, so: seq<Group>, text: seq<Byte>, d: Scan, gs: seq<Group>, tail: Option<NumText>)
    requires Reached(conv, polygon, b, so, text, d, gs, tail)
    ensures At(d, gs)
  {
    hide At;
  }

  // ---- groups of arguments -------------------------------------------------------------------

  /** The next argument begins a group of cmd after the groups p: the letter was just read, or the last
      group is full. */
  predicate Opens(gs: seq<Group>, p: seq<Group>, cmd: Byte) {
    gs == p + [Group(cmd, [])]
    || (gs == p && p != [] && |p[|p| - 1].nums| == Nargs(cmd) == Nargs(p[|p| - 1].cmd) && Repeated(p[|p| - 1].cmd, 1) == cmd)
  }

  lemma OpensWith(gs: seq<Group>, p: seq<Group>, cmd: Byte, v: Num)
    requires Opens(gs, p, cmd) && Nargs(cmd) > 0
    ensures gs != [] && WithArg(gs, v) == p + [Group(cmd, [v])] && Nargs(gs[|gs| - 1].cmd) > 0
    ensures forall d :: At(d, gs) ==> (FlagSlot(d) <==> IsFlag(cmd, 0))
  {
    var none: seq<Num> := [];
    assert none + [v] == [v];
    if gs == p + [Group(cmd, [])] {
      assert gs[..|gs| - 1] == p;
    }
  }

  lemma MoreWith(p: seq<Group>, cmd: Byte, vs: seq<Num>, v: Num)
    requires |vs| < Nargs(cmd)
    ensures WithArg(p + [Group(cmd, vs)], v) == p + [Group(cmd, vs + [v])]
    ensures forall d :: At(d, p + [Group(cmd, vs)]) ==> d.cmd == cmd && (FlagSlot(d) <==> IsFlag(cmd, |vs|))
  {
    hide Nargs;
    assert (p + [Group(cmd, vs)])[..|p|] == p;
  }

  lemma {:induction false} ArgsRead(conv: Conv, polygon: bool, b: Scan, so: seq<Group>, text: seq<Byte>, d: Scan, gs: seq<Group>,
                                    tail: Option<NumText>, p: seq<Group>, cmd: Byte, letter: Byte, args: seq<Argument>, k: nat) returns (d': Scan)
    requires Reached(conv, polygon, b, so, text, d, gs, tail) && ArgsOk(letter, args, tail) && Opens(gs, p, cmd)
    requires 0 < k <= |args| == Nargs(cmd) && (forall i :: IsFlag(letter, i) <==> IsFlag(cmd, i))
    ensures Reached(conv, polygon, b, so, text + ArgsText(args[..k]), d', p + [Group(cmd, Values(conv, args[..k]))],
                    TailOf(letter, args[..k], tail))
    decreases k
  {
    hide Reached, ArgOk, ArgText, Parse, Text, At, FlagSlot, IsFlag, Nargs, WithArg, Opens;
    var i := k - 1;
    var v := Parse(conv, Text(args[i].n));
    assert args[..k][..i] == args[..i];
    assert Values(conv, args[..k]) == Values(conv, args[..i]) + [v];
    assert ArgOk(letter, i, args[i], TailOf(letter, args[..i], tail));
    if i == 0 {
      ReachedIs(conv, polygon, b, so, text, d, gs, tail);
      OpensWith(gs, p, cmd, v);
      assert args[..0] == [] && ArgsText(args[..k]) == ArgText(args[0]) && Values(conv, args[..k]) == [v];
      assert TailOf(letter, args[..0], tail) == tail;
      AtCmd(d, gs);
      d' := ArgRead(conv, polygon, b, so, text, d, gs, tail, letter, 0, args[0]);
    } else {
      var e := ArgsRead(conv, polygon, b, so, text, d, gs, tail, p, cmd, letter, args, i);
      var t, hs := text + ArgsText(args[..i]), p + [Group(cmd, Values(conv, args[..i]))];
      ReachedIs(conv, polygon, b, so, t, e, hs, TailOf(letter, args[..i], tail));
      MoreWith(p, cmd, Values(conv, args[..i]), v);
      d' := ArgRead(conv, polygon, b, so, t, e, hs, TailOf(letter, args[..i], tail), letter, i, args[i]);
      assert t + ArgText(args[i]) == text + ArgsText(args[..k]);
    }
  }

  lemma AtCmd(d: Scan, gs: seq<Group>)
    requires At(d, gs) && gs != []
    ensures d.cmd == gs[|gs| - 1].cmd
  {
  }

  lemma RepeatedFlags(letter: Byte, j: nat)
    ensures forall i :: IsFlag(letter, i) <==> IsFlag(Repeated(letter, j), i)
    ensures Nargs(Repeated(letter, j)) == Nargs(letter)
    ensures j > 0 ==> Repeated(Repeated(letter, j - 1), 1) == Repeated(letter, j)
  {
  }

  /** The first j groups of a command whose letter, or the implicit one, has been read. */
  lemma {:induction false} GroupsRead(conv: Conv, polygon: bool, b: Scan, so: seq<Group>, text: seq<Byte>, d: Scan, p: seq<Group>,
                                      letter: Byte, groups: seq<seq<Argument>>, j: nat) returns (d': Scan)
    requires Reached(conv, polygon, b, so, text, d, p + [Group(letter, [])], None) && GroupsOk(letter, groups)
    requires 0 < j <= |groups| && Nargs(letter) > 0
    ensures Reached(conv, polygon, b, so, text + GroupsText(groups[..j]), d', p + GroupsMeaning(conv, letter, groups[..j]),
                    GroupTail(letter, groups, j))
    decreases j
  {
    hide Reached, ArgsOk, ArgsText, Values, Nargs, IsFlag, GroupsMeaning, Repeated, TailOf, Opens;
    var i := j - 1;
    assert |groups[i]| == Nargs(letter) && ArgsOk(letter, groups[i], GroupTail(letter, groups, i));
    assert groups[..j][..i] == groups[..i];
    MeaningMore(conv, letter, groups[..j]);
    if i == 0 {
      assert groups[..0] == [] && GroupsText(groups[..j]) == ArgsText(groups[0]);
      MeaningNone(conv, letter);
      assert GroupsMeaning(conv, letter, groups[..j]) == [Group(Repeated(letter, 0), Values(conv, groups[0]))];
      d' := GroupRead(conv, polygon, b, so, text, d, p + [Group(letter, [])], None, p, letter, 0, groups[0]);
    } else {
      var e := GroupsRead(conv, polygon, b, so, text, d, p, letter, groups, i);
      var t, q := text + GroupsText(groups[..i]), p + GroupsMeaning(conv, letter, groups[..i]);
      GroupFull(conv, letter, groups, i, p);
      d' := GroupRead(conv, polygon, b, so, t, e, q, GroupTail(letter, groups, i), q, letter, i, groups[i]);
      assert t + ArgsText(groups[i]) == text + GroupsText(groups[..j]);
      assert q + [Group(Repeated(letter, i), Values(conv, groups[i]))] == p + GroupsMeaning(conv, letter, groups[..j]);
    }
  }

  lemma MeaningNone(conv: Conv, letter: Byte)
    ensures GroupsMeaning(conv, letter, []) == []
  {
  }

  /** Group i of a command. */
  lemma {:induction false} GroupRead(conv: Conv, polygon: bool, b: Scan, so: seq<Group>, text: seq<Byte>, d: Scan, gs: seq<Group>,
                                     tail: Option<NumText>, p: seq<Group>, letter: Byte, i: nat, args: seq<Argument>) returns (d': Scan)
    requires Reached(conv, polygon, b, so, text, d, gs, tail) && |args| == Nargs(letter) > 0 && ArgsOk(letter, args, tail)
    requires if i == 0 then gs == p + [Group(letter, [])] else Opens(gs, p, Repeated(letter, i))
    ensures Reached(conv, polygon, b, so, text + ArgsText(args), d', p + [Group(Repeated(letter, i), Values(conv, args))],
                    TailOf(letter, args, None))
  {
    hide Reached, ArgsOk, ArgsText, Values, Nargs, IsFlag;
    RepeatedFlags(letter, i);
    assert args[..|args|] == args;
    TailAny(letter, args, tail, None);
    d' := ArgsRead(conv, polygon, b, so, text, d, gs, tail, p, Repeated(letter, i), letter, args, |args|);
  }

  lemma TailAny(letter: Byte, args: seq<Argument>, x: Option<NumText>, y: Option<NumText>)
    requires args != []
    ensures TailOf(letter, args, x) == TailOf(letter, args, y)
  {
  }

  lemma {:induction false} MeaningMore(conv: Conv, letter: Byte, groups: seq<seq<Argument>>)
    requires groups != []
    ensures var i := |groups| - 1;
            GroupsMeaning(conv, letter, groups) == GroupsMeaning(conv, letter, groups[..i]) + [Group(Repeated(letter, i), Values(conv, groups[i]))]
  {
    hide Values, Repeated;
  }

  /** After i groups the last one is full and the next argument repeats the command. */
  lemma {:induction false} GroupFull(conv: Conv, letter: Byte, groups: seq<seq<Argument>>, i: nat, p: seq<Group>)
    requires GroupsOk(letter, groups) && 0 < i < |groups|
    ensures var q := p + GroupsMeaning(conv, letter, groups[..i]); Opens(q, q, Repeated(letter, i))
  {
    hide ArgsOk, Nargs, Repeated, GroupsMeaning, Values, IsFlag;
    RepeatedFlags(letter, i);
    RepeatedFlags(letter, i - 1);
    MeaningAt(conv, letter, groups[..i], i - 1);
    LastOf(p, GroupsMeaning(conv, letter, groups[..i]));
    assert |groups[i - 1]| == Nargs(letter);
  }

  lemma MeaningAt(conv: Conv, letter: Byte, groups: seq<seq<Argument>>, k: nat)
    requires k < |groups|
    ensures GroupsMeaning(conv, letter, groups)[k] == Group(Repeated(letter, k), Values(conv, groups[k]))
  {
  }

  lemma LastOf(p: seq<Group>, q: seq<Group>)
    requires q != []
    ensures p + q != [] && (p + q)[|p + q| - 1] == q[|q| - 1]
  {
  }

  // ---- commands ------------------------------------------------------------------------------

  /** Nothing is missing from the last group. */
  predicate Whole(gs: seq<Group>) { gs != [] ==> |gs[|gs| - 1].nums| == Nargs(gs[|gs| - 1].cmd) }

  lemma {:induction false} LetterRead(conv: Conv, d: Scan, gs: seq<Group>, gap: seq<Byte>, c: Byte) returns (d': Scan)
    requires At(d, gs) && Whole(gs) && GapOk(gap) && Nargs(c) >= 0
    ensures Reached(conv, false, d, gs, gap + [c], d', gs + [Group(c, [])], None)
  {
    AtCalm(d, gs);
    GapSkipped(conv, d, gap, [c], false);
    d' := d.(cmd := c, argi := 0);
    assert [c][1..] == [] && [Cmd(c)] + [] == [Cmd(c)];
    GrowOne(gs, Cmd(c));
  }

  lemma {:induction false} LetterApart(tail: Option<NumText>, gap: seq<Byte>, c: Byte)
    requires GapOk(gap) && Nargs(c) >= 0
    ensures Apart(tail, gap + [c])
  {
    assert (gap + [c])[0] == if gap == [] then c else gap[0];
  }

  lemma {:induction false} CommandRead(conv: Conv, b: Scan, so: seq<Group>, text: seq<Byte>, d: Scan, gs: seq<Group>,
                                       tail: Option<NumText>, c: Command) returns (d': Scan, tail': Option<NumText>)
    requires Reached(conv, false, b, so, text, d, gs, tail) && Whole(gs) && CommandOk(c)
    ensures var more := if c.groups == [] then [Group(c.letter, [])] else GroupsMeaning(conv, c.letter, c.groups);
            Reached(conv, false, b, so, text + CommandText(c), d', gs + more, tail') && Whole(gs + more)
  {
    hide Reached, At, Nargs, GroupsOk, Apart, GroupsMeaning;
    var t := text + (c.gap + [c.letter]);
    ReachedIs(conv, false, b, so, text, d, gs, tail);
    var e := LetterRead(conv, d, gs, c.gap, c.letter);
    LetterApart(tail, c.gap, c.letter);
    ReachedMore(conv, false, b, so, text, d, gs, tail, c.gap + [c.letter], e, gs + [Group(c.letter, [])], None);
    if c.groups == [] {
      assert text + CommandText(c) == t;
      return e, None;
    }
    var n := |c.groups|;
    assert c.groups[..n] == c.groups;
    d' := GroupsRead(conv, false, b, so, t, e, gs, c.letter, c.groups, n);
    tail' := GroupTail(c.letter, c.groups, n);
    assert text + CommandText(c) == t + GroupsText(c.groups);
    GroupsWhole(conv, c.letter, c.groups, gs);
  }

  lemma {:induction false} GroupsWhole(conv: Conv, letter: Byte, groups: seq<seq<Argument>>, p: seq<Group>)
    requires GroupsOk(letter, groups) && groups != []
    ensures Whole(p + GroupsMeaning(conv, letter, groups))
  {
    hide ArgsOk, Nargs, Repeated, GroupsMeaning, Values, IsFlag;
    var n := |groups| - 1;
    RepeatedFlags(letter, n);
    MeaningAt(conv, letter, groups, n);
    LastOf(p, GroupsMeaning(conv, letter, groups));
    assert |groups[n]| == Nargs(letter);
  }

  lemma {:induction false} CommandsRead(conv: Conv, cs: seq<Command>) returns (d: Scan, tail: Option<NumText>)
    requires forall c :: c in cs ==> CommandOk(c)
    ensures Reached(conv, false, Start(), [], CommandsText(cs), d, Meaning(conv, cs), tail) && Whole(Meaning(conv, cs))
  {
    hide Reached, CommandOk, CommandText, Whole;
    if cs == [] {
      d, tail := Start(), None;
      assert At(d, []);
      ReachedNothing(conv, false, d, []);
      assert Whole([]) by { WholeNone(); }
    } else {
      var n := |cs| - 1;
      var e, t := CommandsRead(conv, cs[..n]);
      assert cs[n] in cs;
      d, tail := CommandRead(conv, Start(), [], CommandsText(cs[..n]), e, Meaning(conv, cs[..n]), t, cs[n]);
    }
  }

  lemma WholeNone()
    ensures Whole([])
  {
  }

  /** At the end of the text, separators behind the last number or not. */
  lemma {:induction false} Ended(conv: Conv, polygon: bool, b: Scan, so: seq<Group>, text: seq<Byte>, d: Scan, gs: seq<Group>,
                                 tail: Option<NumText>, gap: seq<Byte>)
    requires Reached(conv, polygon, b, so, text, d, gs, tail) && GapOk(gap) && (Whole(gs) || polygon)
    ensures var (t, toks) := Run(conv, b, text + gap, polygon);
            var (e, more) := FinishScan(conv, t, polygon);
            e == d && !e.error && GrowAll(GrowAll(so, toks), more) == gs
  {
    hide Run, NumberDone, Holds;
    if gap == [] {
      assert text + gap == text;
      FinishIs(conv, polygon, b, so, text, d, gs, tail);
    } else {
      hide Reached;
      ReachedIs(conv, polygon, b, so, text, d, gs, tail);
      GapRead(conv, polygon, d, gs, gap);
      GapApart(tail, gap);
      ReachedMore(conv, polygon, b, so, text, d, gs, tail, gap, d, gs, None);
      FinishIs(conv, polygon, b, so, text + gap, d, gs, None);
    }
  }

  lemma {:induction false} GapRead(conv: Conv, polygon: bool, d: Scan, gs: seq<Group>, gap: seq<Byte>)
    requires At(d, gs) && GapOk(gap)
    ensures Reached(conv, polygon, d, gs, gap, d, gs, None)
  {
    hide At, Parse, GapOk;
    AtCalm(d, gs);
    assert gap + [] == gap;
    GapSkipped(conv, d, gap, [], polygon);
    ReachedNothing(conv, polygon, d, gs);
  }

  lemma GapApart(tail: Option<NumText>, gap: seq<Byte>)
    requires GapOk(gap) && gap != []
    ensures Apart(tail, gap)
  {
  }

  lemma {:induction false} FinishIs(conv: Conv, polygon: bool, b: Scan, so: seq<Group>, text: seq<Byte>, d: Scan, gs: seq<Group>,
                                    tail: Option<NumText>)
    requires Reached(conv, polygon, b, so, text, d, gs, tail) && (Whole(gs) || polygon)
    ensures var (t, toks) := Run(conv, b, text, polygon);
            var (e, more) := FinishScan(conv, t, polygon);
            e == d && !e.error && GrowAll(GrowAll(so, toks), more) == gs
  {
    hide Run, NumberDone, Holds;
    var (t, toks) := Run(conv, b, text, polygon);
    GrowJoin(so, toks, NumberDone(conv, t).1);
  }

  // ---- the laws ------------------------------------------------------------------------------

  /** Commands written out are the commands read: each letter once for every group of its arguments, a
      repeated move as a line, every argument the number its own text says. */
  lemma {:induction false} PathScans(conv: Conv, cs: seq<Command>, gap: seq<Byte>)
    requires (forall c :: c in cs ==> CommandOk(c)) && GapOk(gap)
    ensures var (d, gs) := Final(conv, CommandsText(cs) + gap, false); !d.error && gs == Meaning(conv, cs) && R.WholePart(gs) == gs
  {
    hide Reached, Run, FinishScan, Meaning;
    var d, tail := CommandsRead(conv, cs);
    Ended(conv, false, Start(), [], CommandsText(cs), d, Meaning(conv, cs), tail, gap);
    var none: seq<Tok> := [];
    assert none + Run(conv, Start(), CommandsText(cs) + gap, false).1 == Run(conv, Start(), CommandsText(cs) + gap, false).1;
  }

  /** A points attribute: pairs of numbers, a move and then lines. */
  lemma {:induction false} PointsScan(conv: Conv, pairs: seq<seq<Argument>>, gap: seq<Byte>)
    requires GroupsOk('M' as int, pairs) && pairs != [] && GapOk(gap)
    ensures var (d, gs) := Final(conv, GroupsText(pairs) + gap, true); !d.error && gs == GroupsMeaning(conv, 'M' as int, pairs)
  {
    hide Reached, Run, FinishScan, GroupsOk, GroupsText, GroupsMeaning, Nargs, Meaning;
    var b, so := Begin(Start(), true).0, [Group('M' as int, [])];
    assert At(b, so);
    ReachedNothing(conv, true, b, so);
    assert [] + so == so && pairs[..|pairs|] == pairs && [] + GroupsText(pairs) == GroupsText(pairs);
    assert [] + GroupsMeaning(conv, 'M' as int, pairs) == GroupsMeaning(conv, 'M' as int, pairs);
    assert Nargs('M' as int) > 0 by { MoveTakesTwo(); }
    var d := GroupsRead(conv, true, b, so, [], b, [], 'M' as int, pairs, |pairs|);
    Ended(conv, true, b, so, GroupsText(pairs), d, GroupsMeaning(conv, 'M' as int, pairs), GroupTail('M' as int, pairs, |pairs|), gap);
    var toks := Run(conv, b, GroupsText(pairs) + gap, true).1;
    GrowJoin([], [Cmd('M' as int)], toks);
    GrowOne([], Cmd('M' as int));
  }

  lemma MoveTakesTwo()
    ensures Nargs('M' as int) == 2
  {
  }
}
