/** The compact recording of a path and its replay. */
module PathRecord {
  import opened Prelude
  import opened Path

  /** REC_POLY_MARK. */
  const MARK := 0xFF

  /** Floats compare equal: the same pattern, or the two zeros. */
  predicate Same(a: Word, b: Word) {
    a == b || (a % 0x8000_0000 == 0 && b % 0x8000_0000 == 0)
  }

  function Bytes2(v: int): (b: seq<Byte>)
    requires -0x8000 <= v < 0x8000
    ensures |b| == 2
  {
    var u := v % 0x1_0000;
    [u % 256, u / 256]
  }

  function Int2(a: Byte, b: Byte): (v: int)
    ensures -0x8000 <= v < 0x8000
  {
    var u := a + 256 * (b as nat);
    if u >= 0x8000 then u - 0x1_0000 else u
  }

  function Bytes4(u: Word): (b: seq<Byte>)
    ensures |b| == 4
  {
    [u % 256, u / 256 % 256, u / 0x1_0000 % 256, u / 0x100_0000]
  }

  function Word4(a: Byte, b: Byte, c: Byte, d: Byte): (u: Word) {
    a + 256 * (b as nat) + 0x1_0000 * (c as nat) + 0x100_0000 * (d as nat)
  }

  function Int4(a: Byte, b: Byte, c: Byte, d: Byte): (v: int)
    ensures -0x8000_0000 <= v < 0x8000_0000
  {
    var u: int := Word4(a, b, c, d);
    if u >= 0x8000_0000 then u - 0x1_0000_0000 else u
  }

  lemma {:induction false} Back2(v: int)
    requires -0x8000 <= v < 0x8000
    ensures Int2(Bytes2(v)[0], Bytes2(v)[1]) == v
  {
  }

  lemma {:induction false} Back4(u: Word)
    ensures Word4(Bytes4(u)[0], Bytes4(u)[1], Bytes4(u)[2], Bytes4(u)[3]) == u
  {
    var a, b, c, d := u % 256, u / 256 % 256, u / 0x1_0000 % 256, u / 0x100_0000;
    assert u == 256 * (u / 256) + a;
    assert u / 256 == 256 * (u / 0x1_0000) + b;
    assert u / 0x1_0000 == 256 * (u / 0x100_0000) + c;
  }

  lemma {:induction false} BackInt4(v: int)
    requires -0x8000_0000 <= v < 0x8000_0000
    ensures var b := Bytes4(v % 0x1_0000_0000); Int4(b[0], b[1], b[2], b[3]) == v
  {
    Back4(v % 0x1_0000_0000);
  }

  /** dec_to_float. */
  function DecToFloat(conv: Conv, dec: int, k: nat): Word {
    conv(if dec < 0 then -dec else dec, -(k as int), dec < 0)
  }

  /** What num_parse guarantees of a compact number. */
  predicate Fine(n: Num) {
    n.compact ==> -0x8000_0000 < n.dec < 0x8000_0000 && n.k <= 2
  }

  lemma {:induction false} ParseFine(conv: Conv, s: seq<Byte>)
    ensures Fine(Parse(conv, s))
  {
    hide DecimalDigits, ExpValue;
  }

  /** The decimal as it is stored: one fraction digit when that is exact and safe. */
  function Rescaled(n: Num): (r: (int, nat))
    requires Fine(n)
    ensures n.compact ==> -0x8000_0000 <= r.0 < 0x8000_0000 && r.1 <= 2
  {
    if n.k == 0 && -0x10_0000 <= n.dec <= 0x10_0000 then (n.dec * 10, 1)
    else if n.k == 2 && n.dec % 10 == 0 && -0x100_0000 <= n.dec <= 0x100_0000 then (n.dec / 10, 1)
    else (n.dec, n.k)
  }

  /** The decimal's bytes; empty when no short form fits. */
  function Short(d: int, k: nat): (b: seq<Byte>)
    requires -0x8000_0000 <= d < 0x8000_0000
  {
    if k == 1 && -120 <= d <= 119 then [d + 120]
    else if k == 1 && -0x8000 <= d < 0x8000 then [0xF0] + Bytes2(d)
    else if k == 2 && -0x8000 <= d < 0x8000 then [0xF1] + Bytes2(d)
    else if k == 2 then [0xF2] + Bytes4(d % 0x1_0000_0000)
    else if k == 0 then [0xF3] + Bytes4(d % 0x1_0000_0000)
    else []
  }

  /** rec_encode: a decimal only when it converts to the very value, the float itself otherwise. */
  function Enc(conv: Conv, n: Num): (b: seq<Byte>)
    requires Fine(n)
    ensures 1 <= |b| <= 5
  {
    var (d, k) := Rescaled(n);
    if n.compact && Short(d, k) != [] && Same(DecToFloat(conv, d, k), n.value) then Short(d, k)
    else [0xF4] + Bytes4(n.value)
  }

  // ---- replay --------------------------------------------------------------------------------

  /** One command executed, with all its arguments. */
  datatype Exec = Exec(cmd: Byte, args: seq<Word>)

  /** d / 10^k and n's decimal are the same number. */
  predicate SameDecimal(n: Num, d: int, k: nat) { n.k <= 2 && k <= 2 && n.dec * Hundredth(k) == d * Hundredth(n.k) }

  function Hundredth(k: nat): (p: int)
    requires k <= 2
  {
    if k == 0 then 1 else if k == 1 then 10 else 100
  }

  /** No other way to write the decimal down takes fewer bytes, as long as equal decimals are equal floats. */
  lemma {:induction false} EncShortest(conv: Conv, n: Num, d: int, k: nat)
    requires Fine(n) && n.compact && -0x8000_0000 <= d < 0x8000_0000 && SameDecimal(n, d, k) && Short(d, k) != []
    requires forall e: int, m: nat :: SameDecimal(n, e, m) ==> Same(DecToFloat(conv, e, m), n.value)
    ensures |Enc(conv, n)| <= |Short(d, k)|
  {
    hide DecToFloat, Same, Bytes2, Bytes4, Short, SameDecimal, Rescaled;
    var (e, m) := Rescaled(n);
    RescaledSame(n);
    SizeOf(d, k);
    SizeOf(e, m);
    NoLonger(n, d, k);
  }

  lemma RescaledSame(n: Num)
    requires Fine(n) && n.compact
    ensures SameDecimal(n, Rescaled(n).0, Rescaled(n).1)
  {
  }

  /** Bytes of d / 10^k, none when it has no short form. */
  function Size(d: int, k: nat): nat {
    if k == 1 && -120 <= d <= 119 then 1 else if (k == 1 || k == 2) && -0x8000 <= d < 0x8000 then 3
    else if k == 0 || k == 2 then 5 else 0
  }

  lemma SizeOf(d: int, k: nat)
    requires -0x8000_0000 <= d < 0x8000_0000
    ensures |Short(d, k)| == Size(d, k)
  {
    hide Bytes2, Bytes4;
  }

  lemma NoLonger(n: Num, d: int, k: nat)
    requires Fine(n) && n.compact && SameDecimal(n, d, k) && Size(d, k) > 0
    ensures var (e, m) := Rescaled(n); Size(e, m) <= Size(d, k) && (Size(e, m) == 0 ==> Size(d, k) == 5)
  {
  }

  function Tenths(b: Byte): int {
    (b as int) - 120
  }

  /** One number of a recording, and the rest of it. */
  function TakeNum(conv: Conv, r: seq<Byte>): (o: Option<(Word, seq<Byte>)>)
    ensures o.Some? ==> |o.value.1| < |r|
  {
    if r == [] then None
    else if r[0] < 0xF0 then Some((DecToFloat(conv, Tenths(r[0]), 1), r[1..]))
    else if r[0] <= 0xF1 then
      if |r| < 3 then None else Some((DecToFloat(conv, Int2(r[1], r[2]), if r[0] == 0xF0 then 1 else 2), r[3..]))
    else if |r| < 5 then None
    else if r[0] <= 0xF3 then
      Some((DecToFloat(conv, Int4(r[1], r[2], r[3], r[4]), if r[0] == 0xF2 then 2 else 0), r[5..]))
    else if r[0] == 0xF4 then Some((Word4(r[1], r[2], r[3], r[4]), r[5..]))
    else None
  }

  function TakeNums(conv: Conv, r: seq<Byte>, n: nat): (o: Option<(seq<Word>, seq<Byte>)>)
    ensures o.Some? ==> |o.value.0| == n && |o.value.1| <= |r|
  {
    if n == 0 then Some(([], r))
    else
      var a := TakeNum(conv, r);
      if a == None then None
      else
        var b := TakeNums(conv, a.value.1, n - 1);
        if b == None then None else Some(([a.value.0] + b.value.0, b.value.1))
  }

  /** path_flattener_replay: whether the recording is whole, and the commands executed. */
  function Replay(conv: Conv, r: seq<Byte>): (bool, seq<Exec>)
    decreases |r|
  {
    if r == [] then (true, [])
    else if r[0] == MARK then Replay(conv, r[1..])
    else if Nargs(r[0]) < 0 then (false, [])
    else
      var a := TakeNums(conv, r[1..], Nargs(r[0]));
      if a == None then (false, [])
      else
        var (ok, more) := Replay(conv, a.value.1);
        (ok, [Exec(r[0], a.value.0)] + more)
  }

  // ---- the recording of a list of commands ---------------------------------------------------

  predicate AllFine(nums: seq<Num>) {
    forall k :: 0 <= k < |nums| ==> Fine(nums[k])
  }

  ghost predicate FineGroups(gs: seq<Group>) {
    forall i :: 0 <= i < |gs| ==> AllFine(gs[i].nums)
  }

  function EncAll(conv: Conv, nums: seq<Num>): seq<Byte>
    requires AllFine(nums)
  {
    if nums == [] then [] else EncAll(conv, nums[..|nums| - 1]) + Enc(conv, nums[|nums| - 1])
  }

  function GroupBytes(conv: Conv, g: Group): seq<Byte>
    requires AllFine(g.nums)
  {
    [g.cmd] + EncAll(conv, g.nums)
  }

  function Recording(conv: Conv, gs: seq<Group>): seq<Byte>
    requires FineGroups(gs)
  {
    if gs == [] then [] else Recording(conv, gs[..|gs| - 1]) + GroupBytes(conv, gs[|gs| - 1])
  }

  lemma {:induction false} EncFront(conv: Conv, nums: seq<Num>)
    requires AllFine(nums) && nums != []
    ensures EncAll(conv, nums) == Enc(conv, nums[0]) + EncAll(conv, nums[1..])
  {
    hide Enc;
    if |nums| > 1 {
      EncFront(conv, nums[..|nums| - 1]);
      assert nums[..|nums| - 1][1..] == nums[1..][..|nums| - 2];
      var a, b, c := Enc(conv, nums[0]), EncAll(conv, nums[1..][..|nums| - 2]), Enc(conv, nums[|nums| - 1]);
      assert (a + b) + c == a + (b + c);
    } else {
      assert nums[..0] == [] && nums[1..] == [];
      var a := Enc(conv, nums[0]);
      assert [] + a == a == a + [];
    }
  }

  /** A stored number reads back as the value it was stored for. */
  lemma {:induction false} TakeEnc(conv: Conv, n: Num, rest: seq<Byte>)
    requires Fine(n)
    ensures var o := TakeNum(conv, Enc(conv, n) + rest); o.Some? && Same(o.value.0, n.value) && o.value.1 == rest
  {
    hide Same, DecToFloat, Bytes2, Bytes4, Int2, Int4, Word4;
    var (d, k) := Rescaled(n);
    SameSelf(n.value);
    if n.compact && Short(d, k) != [] && Same(DecToFloat(conv, d, k), n.value) {
      TakeShort(conv, d, k, rest);
    } else {
      TakeRaw(conv, n.value, rest);
    }
  }

  lemma {:induction false} SameSelf(v: Word)
    ensures Same(v, v)
  {
  }

  lemma {:induction false} TakeRaw(conv: Conv, v: Word, rest: seq<Byte>)
    ensures TakeNum(conv, [0xF4] + Bytes4(v) + rest) == Some((v, rest))
  {
    hide Bytes4, Word4, DecToFloat, Int2, Int4;
    var b := Bytes4(v);
    var r := [0xF4] + b + rest;
    Back4(v);
    assert r[0] == 0xF4 && r[1] == b[0] && r[2] == b[1] && r[3] == b[2] && r[4] == b[3] && r[5..] == rest;
  }

  lemma {:induction false} TakeShort(conv: Conv, d: int, k: nat, rest: seq<Byte>)
    requires -0x8000_0000 <= d < 0x8000_0000 && Short(d, k) != []
    ensures TakeNum(conv, Short(d, k) + rest) == Some((DecToFloat(conv, d, k), rest))
  {
    hide DecToFloat, Bytes2, Bytes4, Int2, Int4, Word4;
    var s := Short(d, k);
    var r := s + rest;
    if |s| == 1 {
      assert r[0] == d + 120 && r[1..] == rest;
    } else if |s| == 3 {
      Back2(d);
      var b := Bytes2(d);
      assert r[0] == s[0] && r[1] == b[0] && r[2] == b[1] && r[3..] == rest;
    } else {
      BackInt4(d);
      var b := Bytes4(d % 0x1_0000_0000);
      assert r[0] == s[0] && r[1] == b[0] && r[2] == b[1] && r[3] == b[2] && r[4] == b[3] && r[5..] == rest;
    }
  }

  ghost predicate SameArgs(a: seq<Word>, nums: seq<Num>) {
    |a| == |nums| && forall k :: 0 <= k < |a| ==> Same(a[k], nums[k].value)
  }

  lemma {:induction false} TakeAll(conv: Conv, nums: seq<Num>, rest: seq<Byte>)
    requires AllFine(nums)
    ensures var o := TakeNums(conv, EncAll(conv, nums) + rest, |nums|);
            o.Some? && SameArgs(o.value.0, nums) && o.value.1 == rest
    decreases |nums|
  {
    hide Enc, TakeNum, Same, Fine;
    if nums == [] {
      assert [] + rest == rest;
    } else {
      EncFront(conv, nums);
      var a, b := Enc(conv, nums[0]), EncAll(conv, nums[1..]);
      assert (a + b) + rest == a + (b + rest);
      TakeEnc(conv, nums[0], b + rest);
      TakeAll(conv, nums[1..], rest);
    }
  }

  /** The commands of a list of whole groups, executed with the values their texts were read as. */
  ghost predicate Executes(es: seq<Exec>, gs: seq<Group>) {
    |es| == |gs| && forall i :: 0 <= i < |es| ==> es[i].cmd == gs[i].cmd && SameArgs(es[i].args, gs[i].nums)
  }

  ghost predicate Whole(gs: seq<Group>) {
    forall i :: 0 <= i < |gs| ==> Complete(gs[i])
  }

  lemma {:induction false} RecordingFront(conv: Conv, gs: seq<Group>)
    requires FineGroups(gs) && gs != []
    ensures Recording(conv, gs) == GroupBytes(conv, gs[0]) + Recording(conv, gs[1..])
  {
    hide GroupBytes;
    if |gs| > 1 {
      RecordingFront(conv, gs[..|gs| - 1]);
      assert gs[..|gs| - 1][1..] == gs[1..][..|gs| - 2];
      var a, b, c := GroupBytes(conv, gs[0]), Recording(conv, gs[1..][..|gs| - 2]), GroupBytes(conv, gs[|gs| - 1]);
      assert (a + b) + c == a + (b + c);
    } else {
      assert gs[..0] == [] && gs[1..] == [];
      var a := GroupBytes(conv, gs[0]);
      assert [] + a == a == a + [];
    }
  }

  /** Replaying the recording of whole commands executes them all, in order, then whatever follows. */
  lemma {:induction false} ReplayRecording(conv: Conv, gs: seq<Group>, rest: seq<Byte>)
    requires FineGroups(gs) && Whole(gs)
    ensures var (ok, es) := Replay(conv, Recording(conv, gs) + rest);
            var (ok', es') := Replay(conv, rest);
            ok == ok' && |es| == |gs| + |es'| && es[|gs|..] == es' && Executes(es[..|gs|], gs)
    decreases |gs|
  {
    hide EncAll, TakeNums, SameArgs;
    if gs == [] {
      assert [] + rest == rest;
    } else {
      var g, tail := gs[0], Recording(conv, gs[1..]);
      RecordingFront(conv, gs);
      var r := Recording(conv, gs) + rest;
      assert r == [g.cmd] + (EncAll(conv, g.nums) + (tail + rest));
      TakeAll(conv, g.nums, tail + rest);
      ReplayRecording(conv, gs[1..], rest);
      ReplayOne(conv, r, g, tail + rest);
      Regrouped(conv, gs, Replay(conv, r).1, Replay(conv, tail + rest).1);
    }
  }

  lemma {:induction false} ReplayOne(conv: Conv, r: seq<Byte>, g: Group, rest: seq<Byte>)
    requires AllFine(g.nums) && Complete(g) && r == [g.cmd] + (EncAll(conv, g.nums) + rest)
    ensures var (ok, es) := Replay(conv, r);
            var (ok', es') := Replay(conv, rest);
            ok == ok' && es != [] && es[0].cmd == g.cmd && SameArgs(es[0].args, g.nums) && es[1..] == es'
  {
    hide EncAll, TakeNums, SameArgs;
    assert r[1..] == EncAll(conv, g.nums) + rest;
    TakeAll(conv, g.nums, rest);
  }

  lemma {:induction false} Regrouped(conv: Conv, gs: seq<Group>, es: seq<Exec>, more: seq<Exec>)
    requires gs != [] && es != [] && es[1..] == more && |more| >= |gs| - 1
    requires es[0].cmd == gs[0].cmd && SameArgs(es[0].args, gs[0].nums) && Executes(more[..|gs| - 1], gs[1..])
    ensures Executes(es[..|gs|], gs) && es[|gs|..] == more[|gs| - 1..]
  {
    hide SameArgs;
    forall i | 0 <= i < |gs| ensures es[i].cmd == gs[i].cmd && SameArgs(es[i].args, gs[i].nums) {
      if i > 0 { assert more[..|gs| - 1][i - 1] == es[i] && gs[1..][i - 1] == gs[i]; }
    }
  }

  // ---- recording token by token --------------------------------------------------------------

  predicate FineTok(t: Tok) {
    t.Arg? ==> Fine(t.num)
  }

  ghost predicate FineToks(toks: seq<Tok>) {
    forall i :: 0 <= i < |toks| ==> FineTok(toks[i])
  }

  function TokBytes(conv: Conv, t: Tok): (b: seq<Byte>)
    requires FineTok(t)
    ensures |b| >= 1
  {
    match t
    case Cmd(c) => [c]
    case Arg(num) => Enc(conv, num)
  }

  /** Arguments only ever follow a command. */
  predicate Follows(gs: seq<Group>, toks: seq<Tok>) {
    gs != [] || toks == [] || toks[0].Cmd?
  }

  lemma {:induction false} RecordingGrows(conv: Conv, gs: seq<Group>, t: Tok)
    requires FineGroups(gs) && FineTok(t) && Follows(gs, [t])
    ensures FineGroups(Grow(gs, t)) && Grow(gs, t) != []
    ensures Recording(conv, Grow(gs, t)) == Recording(conv, gs) + TokBytes(conv, t)
  {
    hide Enc, Fine, Recording, GroupBytes;
    GrowFine(gs, t);
    assert [t][0] == t;
    if t.Cmd? {
      RecordingCmd(conv, gs, t.c);
    } else {
      RecordingArg(conv, gs, t.num);
    }
  }

  lemma {:induction false} RecordingCmd(conv: Conv, gs: seq<Group>, c: Byte)
    requires FineGroups(gs) && FineGroups(gs + [Group(c, [])])
    ensures Recording(conv, gs + [Group(c, [])]) == Recording(conv, gs) + [c]
  {
    hide Enc, Fine;
    var h := gs + [Group(c, [])];
    assert h[..|gs|] == gs;
    assert GroupBytes(conv, h[|gs|]) == [c] + [] == [c];
  }

  lemma {:induction false} RecordingArg(conv: Conv, gs: seq<Group>, num: Num)
    requires FineGroups(gs) && gs != [] && Fine(num) && FineGroups(Grow(gs, Arg(num)))
    ensures Recording(conv, Grow(gs, Arg(num))) == Recording(conv, gs) + Enc(conv, num)
  {
    hide Enc, Fine, GroupBytes;
    var h := Grow(gs, Arg(num));
    var n := |gs| - 1;
    assert h[..n] == gs[..n];
    assert AllFine(gs[n].nums) && FineGroups(gs[..n]);
    ArgBytes(conv, gs[n], num);
    var a, b, c := Recording(conv, gs[..n]), GroupBytes(conv, gs[n]), Enc(conv, num);
    assert (a + b) + c == a + (b + c);
  }

  lemma {:induction false} GrowFine(gs: seq<Group>, t: Tok)
    requires FineGroups(gs) && FineTok(t)
    ensures FineGroups(Grow(gs, t))
  {
    hide Fine;
    var h := Grow(gs, t);
    forall i | 0 <= i < |h| ensures AllFine(h[i].nums) {
      if i < |gs| { assert AllFine(gs[i].nums); }
    }
  }

  lemma {:induction false} ArgBytes(conv: Conv, g: Group, num: Num)
    requires AllFine(g.nums) && Fine(num)
    ensures var h := g.(nums := g.nums + [num]); AllFine(h.nums) && GroupBytes(conv, h) == GroupBytes(conv, g) + Enc(conv, num)
  {
    hide Enc, Fine;
    var nums := g.nums + [num];
    assert nums[..|nums| - 1] == g.nums;
    var a, b, c := [g.cmd], EncAll(conv, g.nums), Enc(conv, num);
    assert (a + b) + c == a + (b + c);
  }

  /** Everything the scanner tells comes from a text, and arguments follow a command. */
  lemma {:induction false} NumberDoneTells(conv: Conv, s: Scan, gs: seq<Group>)
    requires Shaped(conv, s, gs)
    ensures FineToks(NumberDone(conv, s).1) && Follows(gs, NumberDone(conv, s).1)
  {
    hide Parse, Fine;
    ParseFine(conv, s.num);
  }

  lemma {:induction false} FreshTells(conv: Conv, s: Scan, gs: seq<Group>, c: Byte, polygon: bool)
    requires Shaped(conv, s, gs)
    ensures FineToks(Fresh(conv, s, c, polygon).1) && Follows(gs, Fresh(conv, s, c, polygon).1)
  {
    hide Parse, Fine;
    ParseFine(conv, NumberBegin(s, c).num);
  }

  lemma {:induction false} StepTells(conv: Conv, s: Scan, gs: seq<Group>, c: Byte, polygon: bool)
    requires Shaped(conv, s, gs)
    ensures FineToks(Step(conv, s, c, polygon).1) && Follows(gs, Step(conv, s, c, polygon).1)
  {
    hide Shaped, NumberDone, Fresh, FineTok;
    if !s.error {
      NumberDoneTells(conv, s, gs);
      if s.inNum {
        var (d, toks) := NumberDone(conv, s);
        NumberDoneShaped(conv, s, gs);
        if !d.error {
          FreshTells(conv, d, GrowAll(gs, toks), c, polygon);
          var more := Fresh(conv, d, c, polygon).1;
          assert toks == [] ==> toks + more == more && GrowAll(gs, toks) == gs;
        }
      } else {
        FreshTells(conv, s, gs, c, polygon);
      }
    }
  }

  // ---- what finishing leaves -----------------------------------------------------------------

  /** The groups that are whole: all but a last one still waiting for arguments. */
  function WholePart(gs: seq<Group>): seq<Group> {
    if gs != [] && !Complete(gs[|gs| - 1]) then gs[..|gs| - 1] else gs
  }

  function Values(nums: seq<Num>): (v: seq<Word>)
    ensures |v| == |nums|
  {
    seq<Word>(|nums|, k requires 0 <= k < |nums| => nums[k].value)
  }

  /** The commands a direct feed executes: each whole group, once, with the values read. */
  function Direct(gs: seq<Group>): (es: seq<Exec>)
    ensures |es| == |gs|
  {
    seq<Exec>(|gs|, i requires 0 <= i < |gs| => Exec(gs[i].cmd, Values(gs[i].nums)))
  }

  ghost predicate SameExec(a: Exec, b: Exec) {
    a.cmd == b.cmd && |a.args| == |b.args| && forall k :: 0 <= k < |a.args| ==> Same(a.args[k], b.args[k])
  }

  ghost predicate SameExecs(a: seq<Exec>, b: seq<Exec>) {
    |a| == |b| && forall i :: 0 <= i < |a| ==> SameExec(a[i], b[i])
  }

  function Mark(polygon: bool): seq<Byte> {
    if polygon then [MARK] else []
  }

  function Closing(polygon: bool): seq<Byte> {
    if polygon then ['Z' as int] else []
  }

  function ClosingExec(polygon: bool): seq<Exec> {
    if polygon then [Exec('Z' as int, [])] else []
  }

  /** A finished recording replays to exactly the commands of a direct feed, arguments equal as floats. */
  lemma {:induction false} ReplayIsDirect(conv: Conv, gs: seq<Group>, polygon: bool)
    requires FineGroups(gs) && Whole(gs)
    ensures var (ok, es) := Replay(conv, Mark(polygon) + Recording(conv, gs) + Closing(polygon));
            ok && SameExecs(es, Direct(gs) + ClosingExec(polygon))
  {
    hide Recording, Same, SameArgs;
    ReplayRecording(conv, gs, Closing(polygon));
    ReplayClosing(conv, polygon);
    var body := Recording(conv, gs) + Closing(polygon);
    ReplayMark(conv, body, polygon);
    assert Mark(polygon) + Recording(conv, gs) + Closing(polygon) == Mark(polygon) + body;
    var es := Replay(conv, body).1;
    ExecutesSame(es[..|gs|], gs);
    JoinSame(es, Direct(gs), ClosingExec(polygon));
  }

  lemma {:induction false} ReplayMark(conv: Conv, body: seq<Byte>, polygon: bool)
    ensures Replay(conv, Mark(polygon) + body) == Replay(conv, body)
  {
    if polygon { assert ([MARK] + body)[1..] == body; } else { assert Mark(polygon) + body == body; }
  }

  lemma {:induction false} ReplayClosing(conv: Conv, polygon: bool)
    ensures Replay(conv, Closing(polygon)) == (true, ClosingExec(polygon))
  {
    if polygon {
      var g := Group('Z' as int, []);
      var nothing: seq<Byte> := EncAll(conv, g.nums) + [];
      assert ['Z' as int] == [g.cmd] + nothing;
      ReplayOne(conv, Closing(true), g, []);
      var (ok, es) := Replay(conv, Closing(true));
      assert Replay(conv, []) == (true, []);
      assert ok && es == [es[0]] + es[1..] && es[1..] == [];
      assert |es[0].args| == 0;
      assert es[0] == Exec('Z' as int, []);
      assert es == ClosingExec(true);
    } else {
      assert Closing(false) == [];
    }
  }

  lemma {:induction false} ExecutesSame(es: seq<Exec>, gs: seq<Group>)
    requires Executes(es, gs)
    ensures SameExecs(es, Direct(gs))
  {
    hide Same;
    forall i | 0 <= i < |es| ensures SameExec(es[i], Direct(gs)[i]) {
      assert SameArgs(es[i].args, gs[i].nums);
    }
  }

  lemma {:induction false} JoinSame(es: seq<Exec>, a: seq<Exec>, b: seq<Exec>)
    requires |es| == |a| + |b| && SameExecs(es[..|a|], a) && es[|a|..] == b
    ensures SameExecs(es, a + b)
  {
    hide Same;
    forall i | 0 <= i < |es| ensures SameExec(es[i], (a + b)[i]) {
      if i < |a| { assert es[..|a|][i] == es[i]; }
      else { assert es[|a|..][i - |a|] == es[i]; AllSame(es[i]); }
    }
  }

  lemma {:induction false} AllSame(e: Exec)
    ensures SameExec(e, e)
  {
  }
}
