/** The flattener's sink and its replay, and the two ways a path can reach it. */
module PathFlatten {
  import opened Prelude
  import opened Path
  import opened PathRecord
  import opened PathEnds

  /** A command only starts when the one before is whole; an argument only comes when one is due. */
  ghost predicate Due(gs: seq<Group>, t: Tok) {
    if t.Cmd? then Nargs(t.c) >= 0 && Whole(gs)
    else gs != [] && Whole(gs[..|gs| - 1]) && |gs[|gs| - 1].nums| < Nargs(gs[|gs| - 1].cmd)
  }

  ghost predicate AllDue(gs: seq<Group>, toks: seq<Tok>) {
    toks == [] || (AllDue(gs, toks[..|toks| - 1]) && Due(GrowAll(gs, toks[..|toks| - 1]), toks[|toks| - 1]))
  }

  lemma {:induction false} DueJoin(gs: seq<Group>, a: seq<Tok>, b: seq<Tok>)
    requires AllDue(gs, a) && AllDue(GrowAll(gs, a), b)
    ensures AllDue(gs, a + b)
  {
    hide Due;
    if b == [] {
      assert a + b == a;
    } else {
      var n := |b| - 1;
      DueJoin(gs, a, b[..n]);
      GrowJoin(gs, a, b[..n]);
      assert (a + b)[..|a + b| - 1] == a + b[..n];
    }
  }

  lemma {:induction false} DueOne(gs: seq<Group>, t: Tok)
    requires Due(gs, t)
    ensures AllDue(gs, [t])
  {
    hide Due;
    assert [t][..0] == [];
  }

  /** The scanner's groups are whole when its argument count says so. */
  lemma {:induction false} ShapedWhole(conv: Conv, s: Scan, gs: seq<Group>)
    requires Shaped(conv, s, gs)
    ensures s.cmd == 0 || s.argi >= Nargs(s.cmd) ==> Whole(gs)
    ensures s.cmd != 0 && s.argi < Nargs(s.cmd) ==>
              gs != [] && Whole(gs[..|gs| - 1]) && |gs[|gs| - 1].nums| < Nargs(gs[|gs| - 1].cmd)
  {
  }

  lemma {:induction false} NumberDoneDue(conv: Conv, s: Scan, gs: seq<Group>)
    requires Shaped(conv, s, gs)
    ensures AllDue(gs, NumberDone(conv, s).1)
  {
    hide Parse, Shaped;
    var toks := NumberDone(conv, s).1;
    ShapedWhole(conv, s, gs);
    if |toks| == 1 {
      DueOne(gs, toks[0]);
    } else if |toks| == 2 {
      RepeatDue(gs, toks[0].c, toks[1]);
      assert toks == [toks[0]] + [toks[1]];
      DueOne(gs, toks[0]);
      GrowOne(gs, toks[0]);
      DueOne(Grow(gs, toks[0]), toks[1]);
      DueJoin(gs, [toks[0]], [toks[1]]);
    }
  }

  lemma {:induction false} RepeatDue(gs: seq<Group>, c: Byte, t: Tok)
    requires Whole(gs) && Nargs(c) > 0 && t.Arg?
    ensures Due(gs, Cmd(c)) && Due(Grow(gs, Cmd(c)), t)
  {
    assert Grow(gs, Cmd(c))[..|gs|] == gs;
  }

  lemma {:induction false} FreshDue(conv: Conv, s: Scan, gs: seq<Group>, c: Byte, polygon: bool)
    requires Shaped(conv, s, gs) && !s.error && !s.inNum
    ensures AllDue(gs, Fresh(conv, s, c, polygon).1)
  {
    hide Parse, Shaped, NumberDone;
    ShapedWhole(conv, s, gs);
    if IsDigit(c) || c == '.' as int || IsSign(c) {
      SameShaped(conv, s, gs, NumberBegin(s, c));
      NumberDoneDue(conv, NumberBegin(s, c), gs);
    } else if Fresh(conv, s, c, polygon).1 != [] {
      DueOne(gs, Cmd(c));
    }
  }

  lemma {:induction false} StepDue(conv: Conv, s: Scan, gs: seq<Group>, c: Byte, polygon: bool)
    requires Shaped(conv, s, gs)
    ensures AllDue(gs, Step(conv, s, c, polygon).1)
  {
    hide Shaped, NumberDone, Fresh, Due;
    if !s.error {
      if s.inNum {
        var (d, toks) := NumberDone(conv, s);
        NumberDoneShaped(conv, s, gs);
        NumberDoneDue(conv, s, gs);
        if !d.error {
          FreshDue(conv, d, GrowAll(gs, toks), c, polygon);
          DueJoin(gs, toks, Fresh(conv, d, c, polygon).1);
        }
      } else {
        FreshDue(conv, s, gs, c, polygon);
      }
    }
  }

  lemma {:induction false} DirectMore(gs: seq<Group>, g: Group)
    ensures Direct(gs + [g]) == Direct(gs) + [Exec(g.cmd, Values(g.nums))]
  {
  }

  class Flattener {
    const conv: Conv
    const args: array<Word>
    var sc: Scan
    var polygonMode: bool
    var log: seq<Exec>
    ghost var gs: seq<Group>

    ghost predicate Valid()
      reads this, args
    {
      args.Length == 8 && Shaped(conv, sc, gs) && log == Direct(WholePart(gs)) && Held(gs)
      && (polygonMode ==> PolyCmd(sc))
    }

    /** The arguments of a group not yet whole are in the buffer. */
    ghost predicate Held(gs: seq<Group>)
      reads args
    {
      gs != [] ==> |gs[|gs| - 1].nums| <= args.Length && args[..|gs[|gs| - 1].nums|] == Values(gs[|gs| - 1].nums)
    }

    constructor (conv: Conv)
      ensures Valid() && fresh(args) && this.conv == conv && sc == Start() && gs == [] && log == [] && !polygonMode
    {
      this.conv := conv;
      args := new Word[8](_ => 0);
      sc, polygonMode, log, gs := Start(), false, [], [];
    }

    /** flat_on_cmd and flat_on_num: a command is executed with its last argument, or at once if it
        takes none. */
    method Take(t: Tok, cmd: Byte, argi: nat)
      requires args.Length == 8 && log == Direct(WholePart(gs)) && Held(gs) && Due(gs, t)
      requires t.Arg? ==> gs[|gs| - 1].cmd == cmd && |gs[|gs| - 1].nums| == argi
      modifies this`log, this`gs, args
      ensures gs == Grow(old(gs), t) && log == Direct(WholePart(gs)) && Held(gs)
    {
      hide Values;
      ghost var g0 := gs;
      gs := Grow(gs, t);
      if t.Cmd? {
        CmdWhole(g0, t.c);
        if t.c == 'Z' as int || t.c == 'z' as int { log := log + [Exec(t.c, [])]; }
        assert args[..0] == Values([]);
      } else {
        args[argi] := t.num.value;
        ArgWhole(g0, t.num);
        ValuesMore(g0[|g0| - 1].nums, t.num);
        assert args[..argi + 1] == args[..argi] + [t.num.value];
        if argi + 1 == Nargs(cmd) { log := log + [Exec(cmd, args[..argi + 1])]; }
      }
    }

    method TakeAll(toks: seq<Tok>)
      requires args.Length == 8 && log == Direct(WholePart(gs)) && Held(gs) && AllDue(gs, toks)
      requires Shaped(conv, sc, gs)
      modifies this`log, this`gs, args
      ensures gs == GrowAll(old(gs), toks) && log == Direct(WholePart(gs)) && Held(gs)
    {
      hide WholePart, Direct, Shaped, Due, Grow;
      var cmd, argi := sc.cmd, sc.argi;
      ghost var g0 := gs;
      LastGroup(conv, sc, gs);
      var i := 0;
      assert toks[..0] == [] && toks[..|toks|] == toks;
      while i < |toks|
        invariant 0 <= i <= |toks| && args.Length == 8 && gs == GrowAll(g0, toks[..i]) && 0 <= argi
        invariant log == Direct(WholePart(gs)) && Held(gs) && AllDue(g0, toks[..i])
        invariant gs != [] ==> gs[|gs| - 1].cmd == cmd && |gs[|gs| - 1].nums| == argi
      {
        var t := toks[i];
        DuePrefix(g0, toks, i);
        assert toks[..i + 1][..i] == toks[..i];
        GrowLast(gs, t);
        Take(t, cmd, argi);
        if t.Cmd? { cmd, argi := t.c, 0; } else { argi := argi + 1; }
        i := i + 1;
      }
    }

    method FeedBytes(text: seq<Byte>, polygon: bool)
      requires Valid() && (polygonMode ==> polygon) && (polygon ==> PolyCmd(sc))
      modifies this`sc, this`log, this`gs, args
      ensures Valid()
      ensures (sc, GrowAll(old(gs), Run(conv, old(sc), text, polygon).1)) == (Run(conv, old(sc), text, polygon).0, gs)
    {
      hide Shaped, Step, Run, PolyCmd, Ahead, WholePart, Direct;
      ghost var g0 := gs;
      ghost var whole := Run(conv, sc, text, polygon);
      ghost var told: seq<Tok> := [];
      assert text[0..] == text;
      AheadStart(conv, sc, text, polygon);
      var i := 0;
      while i < |text| && !sc.error
        invariant 0 <= i <= |text| && Valid() && gs == GrowAll(g0, told) && (polygon ==> PolyCmd(sc))
        invariant Ahead(conv, whole, told, sc, text[i..], polygon)
      {
        var (t, toks) := Step(conv, sc, text[i], polygon);
        StepShaped(conv, sc, gs, text[i], polygon);
        StepDue(conv, sc, gs, text[i], polygon);
        if polygon { StepPoly(conv, sc, text[i]); }
        AheadStep(conv, whole, told, sc, text, i, polygon);
        GrowJoin(g0, told, toks);
        told := told + toks;
        TakeAll(toks);
        sc := t;
        i := i + 1;
      }
      AheadDone(conv, whole, told, sc, text[i..], polygon);
    }

    /** path_flattener_feed and path_flattener_feed_points: every whole command of the text so far has
        been executed once, in order, however the text was cut. */
    method Feed(text: seq<Byte>, polygon: bool) returns (ok: bool)
      requires Valid() && (polygonMode ==> polygon) && (polygon ==> PolyCmd(sc))
      modifies this, args
      ensures Valid() && ok == !sc.error && (polygon ==> polygonMode)  && (!polygon ==> polygonMode == old(polygonMode))
      ensures var (t, toks) := Path.Feed(conv, old(sc), text, polygon); sc == t && gs == GrowAll(old(gs), toks)
    {
      hide Shaped, Run, WholePart, Direct;
      if polygon { polygonMode := true; }
      ghost var g0 := gs;
      var (b, first) := Begin(sc, polygon);
      ghost var more := Run(conv, b, text, polygon).1;
      GrowJoin(g0, first, more);
      BeginShaped(conv, sc, gs, polygon);
      BeginDue(conv, sc, gs, polygon);
      TakeAll(first);
      sc := b;
      FeedBytes(text, polygon);
      ok := !sc.error;
    }

    method Finish() returns (ok: bool)
      requires Valid()
      modifies this, args
      ensures var (d, toks) := FinishScan(conv, old(sc), old(polygonMode));
              var g := GrowAll(old(gs), toks);
              ok == !d.error && (ok ==> log == Direct(WholePart(g)) + ClosingExec(old(polygonMode)))
    {
      hide Shaped, WholePart, Direct, NumberDone;
      var (d, toks) := FinishScan(conv, sc, polygonMode);
      FinishShaped(conv, sc, gs, polygonMode);
      FinishDue(conv, sc, gs, polygonMode);
      TakeAll(toks);
      sc := d;
      ok := !d.error;
      if ok { log := log + ClosingExec(polygonMode); }
    }

    /** One stored number. */
    method ReplayNum(rec: seq<Byte>, i: nat) returns (ok: bool, v: Word, e: nat)
      requires i <= |rec|
      ensures ok == TakeNum(conv, rec[i..]).Some?
      ensures ok ==> i < e <= |rec| && TakeNum(conv, rec[i..]) == Some((v, rec[e..]))
    {
      hide DecToFloat, Int2, Int4, Word4;
      ok, v, e := false, 0, i;
      ghost var r := rec[i..];
      if i >= |rec| { return; }
      var b := rec[i];
      if b < 0xF0 {
        Later(rec, i, 1);
        return true, DecToFloat(conv, Tenths(b), 1), i + 1;
      }
      if b == 0xF0 || b == 0xF1 {
        if i + 3 > |rec| { return; }
        Later(rec, i, 3);
        return true, DecToFloat(conv, Int2(rec[i + 1], rec[i + 2]), if b == 0xF0 then 1 else 2), i + 3;
      }
      if b == 0xF2 || b == 0xF3 {
        if i + 5 > |rec| { return; }
        Later(rec, i, 5);
        return true, DecToFloat(conv, Int4(rec[i + 1], rec[i + 2], rec[i + 3], rec[i + 4]), if b == 0xF2 then 2 else 0), i + 5;
      }
      if b == 0xF4 {
        if i + 5 > |rec| { return; }
        Later(rec, i, 5);
        return true, Word4(rec[i + 1], rec[i + 2], rec[i + 3], rec[i + 4]), i + 5;
      }
    }

    /** A command's arguments. */
    method ReplayArgs(rec: seq<Byte>, i: nat, n: nat) returns (ok: bool, a: seq<Word>, e: nat)
      requires i <= |rec|
      ensures ok == TakeNums(conv, rec[i..], n).Some?
      ensures ok ==> e <= |rec| && TakeNums(conv, rec[i..], n) == Some((a, rec[e..]))
      decreases n
    {
      hide TakeNum;
      ok, a, e := true, [], i;
      if n == 0 { return; }
      var v;
      ok, v, e := ReplayNum(rec, i);
      if !ok { return; }
      ok, a, e := ReplayArgs(rec, e, n - 1);
      if ok { a := [v] + a; }
    }

    /** path_flattener_replay. */
    method ReplayAll(rec: seq<Byte>) returns (ok: bool)
      modifies this`log
      ensures ok == Replay(conv, rec).0 && log == old(log) + Replay(conv, rec).1
    {
      hide TakeNums, Nargs;
      var i := 0;
      ghost var whole := Replay(conv, rec);
      ghost var done: seq<Exec> := [];
      assert rec[0..] == rec && log + done == log && done + whole.1 == whole.1;
      while i < |rec|
        invariant 0 <= i <= |rec| && log == old(log) + done
        invariant whole == (Replay(conv, rec[i..]).0, done + Replay(conv, rec[i..]).1)
        decreases |rec| - i
      {
        ghost var r := rec[i..];
        var cmd := rec[i];
        i := i + 1;
        assert r[1..] == rec[i..];
        if cmd == MARK { continue; }
        if Nargs(cmd) < 0 { assert done + [] == done; return false; }
        var a, e;
        ok, a, e := ReplayArgs(rec, i, Nargs(cmd));
        if !ok { assert done + [] == done; return false; }
        i := e;
        ghost var more := Replay(conv, rec[i..]).1;
        assert done + ([Exec(cmd, a)] + more) == (done + [Exec(cmd, a)]) + more;
        assert old(log) + (done + [Exec(cmd, a)]) == (old(log) + done) + [Exec(cmd, a)];
        log := log + [Exec(cmd, a)];
        done := done + [Exec(cmd, a)];
      }
      assert rec[i..] == [] && done + [] == done;
      ok := true;
    }
  }

  lemma Later<T>(s: seq<T>, i: nat, n: nat)
    requires i + n <= |s|
    ensures s[i..][n..] == s[i + n..] && forall k :: 0 <= k < n ==> s[i..][k] == s[i + k]
  {
  }

  lemma {:induction false} BeginDue(conv: Conv, s: Scan, gs: seq<Group>, polygon: bool)
    requires Shaped(conv, s, gs)
    ensures AllDue(gs, Begin(s, polygon).1)
  {
    hide Shaped;
    ShapedWhole(conv, s, gs);
    if Begin(s, polygon).1 != [] { DueOne(gs, Cmd('M' as int)); }
  }

  lemma {:induction false} FinishDue(conv: Conv, s: Scan, gs: seq<Group>, polygon: bool)
    requires Shaped(conv, s, gs)
    ensures AllDue(gs, FinishScan(conv, s, polygon).1)
  {
    hide Shaped, NumberDone;
    if !s.error { NumberDoneDue(conv, s, gs); }
  }

  lemma {:induction false} CmdWhole(gs: seq<Group>, c: Byte)
    requires Whole(gs) && Nargs(c) >= 0
    ensures WholePart(gs) == gs
    ensures var h := Grow(gs, Cmd(c));
            Direct(WholePart(h)) == if Nargs(c) == 0 then Direct(gs) + [Exec(c, [])] else Direct(gs)
    ensures Nargs(c) == 0 <==> c == 'Z' as int || c == 'z' as int
  {
    DirectMore(gs, Group(c, []));
    assert Grow(gs, Cmd(c))[..|gs|] == gs;
    assert Values([]) == [];
  }

  lemma {:induction false} ArgWhole(gs: seq<Group>, num: Num)
    requires gs != [] && Whole(gs[..|gs| - 1]) && |gs[|gs| - 1].nums| < Nargs(gs[|gs| - 1].cmd)
    ensures var g := gs[|gs| - 1];
            var h := Grow(gs, Arg(num));
            Direct(WholePart(h)) ==
              if |g.nums| + 1 == Nargs(g.cmd) then Direct(WholePart(gs)) + [Exec(g.cmd, Values(g.nums + [num]))]
              else Direct(WholePart(gs))
  {
    hide Values;
    var g := gs[|gs| - 1];
    DirectMore(gs[..|gs| - 1], g.(nums := g.nums + [num]));
  }

  lemma {:induction false} ValuesMore(nums: seq<Num>, num: Num)
    ensures Values(nums + [num]) == Values(nums) + [num.value]
  {
  }

  lemma {:induction false} LastGroup(conv: Conv, s: Scan, gs: seq<Group>)
    requires Shaped(conv, s, gs)
    ensures gs != [] ==> gs[|gs| - 1].cmd == s.cmd && |gs[|gs| - 1].nums| == s.argi
  {
  }

  lemma {:induction false} GrowLast(gs: seq<Group>, t: Tok)
    requires Due(gs, t)
    ensures var h := Grow(gs, t);
            h != [] && if t.Cmd? then h[|h| - 1] == Group(t.c, [])
                       else gs != [] && h[|h| - 1].cmd == gs[|gs| - 1].cmd && |h[|h| - 1].nums| == |gs[|gs| - 1].nums| + 1
  {
  }

  lemma {:induction false} DuePrefix(gs: seq<Group>, toks: seq<Tok>, i: nat)
    requires AllDue(gs, toks) && i < |toks|
    ensures AllDue(gs, toks[..i + 1]) && Due(GrowAll(gs, toks[..i]), toks[i])
    decreases |toks|
  {
    hide Due;
    var n := |toks| - 1;
    if i < n {
      DuePrefix(gs, toks[..n], i);
      assert toks[..n][..i + 1] == toks[..i + 1] && toks[..n][..i] == toks[..i];
    } else {
      assert toks[..i + 1] == toks;
    }
  }
}
