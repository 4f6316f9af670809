/** The two ends of the path scanner: the recorder and the flattener. What the flattener does with a
    command (curves, arcs, the transform) is not modelled: it logs the commands it executes. */
module PathEnds {
  import opened Prelude
  import opened Path
  import opened PathRecord

  /** What a buffer holds after the given groups. */
  function Stored(conv: Conv, marked: bool, gs: seq<Group>): seq<Byte>
    requires FineGroups(gs)
  {
    Mark(marked) + Recording(conv, gs)
  }

  lemma {:induction false} StoredGrows(conv: Conv, marked: bool, gs: seq<Group>, t: Tok)
    requires FineGroups(gs) && FineTok(t) && Follows(gs, [t])
    ensures FineGroups(Grow(gs, t)) && Grow(gs, t) != []
    ensures Stored(conv, marked, Grow(gs, t)) == Stored(conv, marked, gs) + TokBytes(conv, t)
  {
    hide Recording, TokBytes;
    RecordingGrows(conv, gs, t);
    var a, b, c := Mark(marked), Recording(conv, gs), TokBytes(conv, t);
    assert (a + b) + c == a + (b + c);
  }

  /** More tokens never take bytes back. */
  lemma {:induction false} StoredLonger(conv: Conv, marked: bool, gs: seq<Group>, toks: seq<Tok>)
    requires FineGroups(gs) && FineToks(toks) && Follows(gs, toks)
    ensures FineGroups(GrowAll(gs, toks)) && (gs != [] || toks != [] ==> GrowAll(gs, toks) != [])
    ensures |Stored(conv, marked, GrowAll(gs, toks))| >= |Stored(conv, marked, gs)|
  {
    hide Stored, TokBytes, FineTok, Grow;
    if toks != [] {
      var n := |toks| - 1;
      StoredLonger(conv, marked, gs, toks[..n]);
      StoredGrows(conv, marked, GrowAll(gs, toks[..n]), toks[n]);
    }
  }

  class Recorder {
    const conv: Conv
    const buf: array<Byte>
    var sc: Scan
    var len: nat
    var overflow: bool
    ghost var gs: seq<Group>
    ghost var marked: bool

    ghost predicate Valid()
      reads this, buf
    {
      len <= buf.Length && (!overflow ==> Shaped(conv, sc, gs) && Holds(gs, marked) && (marked ==> PolyCmd(sc)))
    }

    ghost predicate Holds(gs: seq<Group>, marked: bool)
      reads this`len, buf
    {
      FineGroups(gs) && len <= buf.Length && buf[..len] == Stored(conv, marked, gs)
    }

    constructor (conv: Conv, cap: nat)
      ensures Valid() && fresh(buf) && buf.Length == cap && this.conv == conv
      ensures sc == Start() && gs == [] && !marked && !overflow
    {
      this.conv := conv;
      buf := new Byte[cap];
      sc, len, overflow, gs, marked := Start(), 0, false, [], false;
    }

    /** rec_put. */
    method Put(b: seq<Byte>) returns (ok: bool)
      requires len <= buf.Length
      modifies this`len, this`overflow, buf
      ensures len <= buf.Length && ok == !overflow
      ensures overflow <==> old(overflow) || old(len) + |b| > buf.Length
      ensures ok ==> buf[..len] == old(buf[..len]) + b
    {
      if overflow || len + |b| > buf.Length { overflow := true; return false; }
      for i := 0 to |b|
        invariant len == old(len) && !overflow && buf[..len] == old(buf[..len])
        invariant buf[len..len + i] == b[..i]
      {
        buf[len + i] := b[i];
      }
      len := len + |b|;
      assert buf[..len] == buf[..old(len)] + buf[old(len)..len];
      ok := true;
    }

    /** The recorder's sink, for the tokens of one byte. */
    method PutToks(toks: seq<Tok>) returns (ok: bool)
      requires !overflow && Holds(gs, marked) && FineToks(toks) && Follows(gs, toks)
      modifies this`len, this`overflow, this`gs, buf
      ensures ok == !overflow && len <= buf.Length && gs == GrowAll(old(gs), toks) && FineGroups(gs)
      ensures overflow <==> |Stored(conv, marked, gs)| > buf.Length
      ensures ok ==> Holds(gs, marked)
    {
      hide Stored, TokBytes, FineTok, Grow;
      ghost var g0, all := gs, GrowAll(gs, toks);
      StoredLonger(conv, marked, g0, toks);
      var i := 0;
      assert toks[..0] == [];
      while i < |toks|
        invariant 0 <= i <= |toks| && !overflow && gs == GrowAll(g0, toks[..i]) && Holds(gs, marked)
        invariant i > 0 || g0 != [] ==> gs != []
      {
        var t := toks[i];
        assert toks[..i + 1][..i] == toks[..i];
        StoredGrows(conv, marked, gs, t);
        GrowJoin(g0, toks[..i + 1], toks[i + 1..]);
        assert toks[..i + 1] + toks[i + 1..] == toks;
        StoredLonger(conv, marked, Grow(gs, t), toks[i + 1..]);
        ok := Put(TokBytes(conv, t));
        gs := Grow(gs, t);
        if !ok { gs := all; return; }
        i := i + 1;
      }
      assert toks[..|toks|] == toks;
      ok := true;
    }

    /** The bytes of a text, until it ends, turns out malformed or no longer fits. */
    method FeedBytes(text: seq<Byte>, polygon: bool) returns (ok: bool)
      requires Valid() && !overflow && marked == polygon && (polygon ==> PolyCmd(sc))
      modifies this`sc, this`len, this`overflow, this`gs, buf
      ensures Valid() && ok == (!overflow && !sc.error)
      ensures var (t, toks) := Run(conv, old(sc), text, polygon);
              && gs == GrowAll(old(gs), toks) && FineGroups(gs)
              && (overflow <==> |Stored(conv, marked, gs)| > buf.Length)
              && (!overflow ==> sc == t)
    {
      hide Shaped, Stored, Step, Run, FineTok, PolyCmd, Ahead, GrowAll;
      ghost var s0, g0 := sc, gs;
      ghost var whole := Run(conv, sc, text, polygon);
      ghost var told: seq<Tok> := [];
      assert text[0..] == text;
      AheadStart(conv, sc, text, polygon);
      FitsNow(conv, marked, gs, buf[..len], buf.Length);
      assert GrowAll(g0, told) == g0 by { GrowNone(g0); }
      var i := 0;
      while i < |text| && !sc.error
        invariant 0 <= i <= |text| && Valid() && !overflow
        invariant gs == GrowAll(g0, told) && |Stored(conv, marked, gs)| <= buf.Length
        invariant Ahead(conv, whole, told, sc, text[i..], polygon)
      {
        var (t, toks) := Step(conv, sc, text[i], polygon);
        StepShaped(conv, sc, gs, text[i], polygon);
        StepTells(conv, sc, gs, text[i], polygon);
        if polygon { StepPoly(conv, sc, text[i]); }
        AheadStep(conv, whole, told, sc, text, i, polygon);
        GrowJoin(g0, told, toks);
        told := told + toks;
        ok := PutToks(toks);
        sc := t;
        i := i + 1;
        if !ok {
          RestLonger(conv, marked, sc, gs, text[i..], polygon);
          AheadGrows(conv, whole, g0, told, sc, text[i..], polygon);
          gs := GrowAll(g0, whole.1);
          return;
        }
      }
      AheadDone(conv, whole, told, sc, text[i..], polygon);
      ok := !sc.error;
    }

    /** path_recorder_feed and path_recorder_feed_points. Cut the text anywhere: the buffer holds the
        encoding of exactly the tokens of the text so far, unless they do not fit. */
    method Feed(text: seq<Byte>, polygon: bool) returns (ok: bool)
      requires Valid() && !overflow && (if sc.cmd == 0 then !marked else marked == polygon)
      modifies this, buf
      ensures Valid() && ok == (!overflow && !sc.error)
      ensures var (t, toks) := Path.Feed(conv, old(sc), text, polygon);
              && gs == GrowAll(old(gs), toks) && FineGroups(gs)
              && (overflow <==> |Stored(conv, marked, gs)| > buf.Length)
              && (!overflow ==> sc == t)
      ensures marked == if old(sc).cmd == 0 && !old(sc).error then polygon else old(marked)
    {
      hide Shaped, Stored, Step, Run, FineTok;
      FitsNow(conv, marked, gs, buf[..len], buf.Length);
      if sc.error {
        ErrorRuns(conv, sc, text, polygon);
        return false;
      }
      ghost var s0, g0 := sc, gs;
      var (b, first) := Begin(sc, polygon);
      GrowJoin(g0, first, Run(conv, b, text, polygon).1);
      if polygon && sc.cmd == 0 {
        NoGroups(conv, sc, gs);
        BeginShaped(conv, sc, gs, true);
        ok := PutMark();
        sc := b;
        if !ok {
          MarkedLonger(conv, b, text);
          gs := GrowAll(g0, first + Run(conv, b, text, polygon).1);
          return;
        }
      }
      ok := FeedBytes(text, polygon);
    }

    method PutMark() returns (ok: bool)
      requires Valid() && !overflow && gs == [] && !marked
      modifies this`len, this`overflow, this`gs, this`marked, buf
      ensures marked && ok == !overflow && len <= buf.Length && gs == GrowAll([], [Cmd('M' as int)]) && FineGroups(gs)
      ensures overflow <==> buf.Length < 2
      ensures ok ==> Holds(gs, marked)
    {
      ghost var m := [Cmd('M' as int)];
      MarkedStored(conv);
      marked := true;
      ok := Put([MARK]);
      if ok { ok := Put(['M' as int]); }
      gs := GrowAll([], m);
    }

    /** path_recorder_finish: a group still waiting for arguments is taken back out, its last number
        measured from the text the scanner kept; a points attribute is closed. */
    method Finish() returns (ok: bool)
      requires Valid() && !overflow
      modifies this, buf
      ensures marked == old(marked)
      ensures var (d, toks) := FinishScan(conv, old(sc), marked);
              var g := GrowAll(old(gs), toks);
              && FineGroups(g) && (!d.error ==> Whole(WholePart(g)) && FineGroups(WholePart(g)))
              && (ok <==> !d.error && |Stored(conv, marked, g)| <= buf.Length
                          && |Stored(conv, marked, WholePart(g))| + |Closing(marked)| <= buf.Length)
              && (ok ==> len <= buf.Length && buf[..len] == Stored(conv, marked, WholePart(g)) + Closing(marked))
    {
      hide Shaped, Stored, NumberDone, FineTok, PolyCmd, WholePart, Whole, Enc, Parse, FineGroups;
      FirstByte(conv, sc, gs, marked);
      var polygon := len > 0 && buf[0] == MARK;
      var (d, toks) := FinishScan(conv, sc, polygon);
      FinishShaped(conv, sc, gs, polygon);
      if sc.error { return false; }
      ok := PutToks(toks);
      sc := d;
      if !d.error { FinishWhole(conv, d, gs, polygon); }
      if !ok || d.error { return false; }
      if d.cmd != 0 && d.argi < Nargs(d.cmd) {
        DropIs(conv, marked, d, gs);
        TakeBack(d);
      }
      if polygon { ok := Put(['Z' as int]); }
    }

    /** The trailing group is removed: its letter and, if it has one, its only number. */
    method TakeBack(d: Scan)
      requires Fine(Parse(conv, d.num)) && len <= buf.Length
      requires 1 + (if d.argi == 1 then |Enc(conv, Parse(conv, d.num))| else 0) <= len
      modifies this`len
      ensures var drop := 1 + if d.argi == 1 then |Enc(conv, Parse(conv, d.num))| else 0;
              len == old(len) - drop && buf[..len] == old(buf[..len])[..len]
    {
      hide Parse, Enc;
      var drop := 1;
      if d.argi == 1 { drop := drop + |Enc(conv, Parse(conv, d.num))|; }
      len := len - drop;
      assert buf[..len] == buf[..len + drop][..len];
    }
  }

  /** The buffer starts with the mark exactly when it records a points attribute. */
  lemma {:induction false} FirstByte(conv: Conv, s: Scan, gs: seq<Group>, marked: bool)
    requires Shaped(conv, s, gs) && FineGroups(gs)
    ensures var b := Stored(conv, marked, gs); (b != [] && b[0] == MARK) == marked
  {
    hide GroupBytes;
    if !marked && gs != [] {
      RecordingFront(conv, gs);
      HeadByte(conv, gs[0]);
    }
  }

  lemma {:induction false} HeadByte(conv: Conv, g: Group)
    requires AllFine(g.nums) && Nargs(g.cmd) >= 0
    ensures GroupBytes(conv, g) != [] && GroupBytes(conv, g)[0] != MARK
  {
  }

  lemma {:induction false} FinishShaped(conv: Conv, s: Scan, gs: seq<Group>, polygon: bool)
    requires Shaped(conv, s, gs) && (polygon ==> PolyCmd(s))
    ensures var (d, toks) := FinishScan(conv, s, polygon);
            && Shaped(conv, d, GrowAll(gs, toks)) && FineToks(toks) && Follows(gs, toks)
            && (polygon ==> PolyCmd(d)) && (!d.error ==> !d.inNum)
  {
    hide Shaped, NumberDone;
    if !s.error {
      NumberDoneShaped(conv, s, gs);
      NumberDoneTells(conv, s, gs);
      if polygon { NumberDonePoly(conv, s); }
      var (t, toks) := NumberDone(conv, s);
      var d := FinishScan(conv, s, polygon).0;
      SameShaped(conv, t, GrowAll(gs, toks), d);
    }
  }

  /** What finishing lets through: all groups whole, or a last one with at most one argument. */
  lemma {:induction false} FinishWhole(conv: Conv, d: Scan, gs: seq<Group>, polygon: bool)
    requires Shaped(conv, d, gs) && FineGroups(gs) && !d.error && (polygon ==> PolyCmd(d))
    ensures Whole(WholePart(gs)) && FineGroups(WholePart(gs))
    ensures d.cmd == 0 || d.argi >= Nargs(d.cmd) ==> WholePart(gs) == gs
    ensures polygon && d.cmd != 0 && d.argi < Nargs(d.cmd) ==> d.argi <= 1
  {
  }

  lemma {:induction false} DropIs(conv: Conv, marked: bool, d: Scan, gs: seq<Group>)
    requires Shaped(conv, d, gs) && FineGroups(gs) && FineGroups(WholePart(gs)) && !d.error && !d.inNum
    requires d.cmd != 0 && d.argi < Nargs(d.cmd) && d.argi <= 1
    ensures Fine(Parse(conv, d.num))
    ensures var drop := 1 + if d.argi == 1 then |Enc(conv, Parse(conv, d.num))| else 0;
            var b := Stored(conv, marked, gs);
            drop <= |b| && b[..|b| - drop] == Stored(conv, marked, WholePart(gs))
  {
    hide Enc, Parse, Fine;
    ParseFine(conv, d.num);
    var g := gs[|gs| - 1];
    LastBytes(conv, g, d);
    var a, b, c := Mark(marked), Recording(conv, gs[..|gs| - 1]), GroupBytes(conv, g);
    assert a + (b + c) == (a + b) + c;
  }

  lemma {:induction false} LastBytes(conv: Conv, g: Group, d: Scan)
    requires AllFine(g.nums) && |g.nums| == d.argi <= 1 && Fine(Parse(conv, d.num))
    requires d.argi == 1 ==> g.nums[0] == Parse(conv, d.num)
    ensures |GroupBytes(conv, g)| == 1 + if d.argi == 1 then |Enc(conv, Parse(conv, d.num))| else 0
  {
    hide Enc, Parse, Fine;
    if d.argi == 1 {
      assert g.nums[..0] == [];
      assert EncAll(conv, g.nums) == EncAll(conv, g.nums[..0]) + Enc(conv, g.nums[0]);
    } else {
      assert g.nums == [];
    }
  }

  lemma {:induction false} MarkedStored(conv: Conv)
    ensures FineGroups([]) && Stored(conv, false, []) == []
    ensures FineGroups(GrowAll([], [Cmd('M' as int)]))
    ensures Stored(conv, true, GrowAll([], [Cmd('M' as int)])) == [MARK] + ['M' as int]
  {
    var m := Cmd('M' as int);
    GrowOne([], m);
    StoredGrows(conv, true, [], m);
    assert [MARK] + [] == [MARK];
  }

  /** Once the mark and the first command do not fit, nothing longer does. */
  lemma {:induction false} MarkedLonger(conv: Conv, b: Scan, text: seq<Byte>)
    requires b.cmd == 'M' as int && b.argi == 0
    requires Shaped(conv, b, GrowAll([], [Cmd('M' as int)]))
    ensures var all := GrowAll([], [Cmd('M' as int)] + Run(conv, b, text, true).1);
            FineGroups(all) && |Stored(conv, true, all)| >= 2
  {
    hide Shaped, Stored, Run;
    MarkedStored(conv);
    GrowJoin([], [Cmd('M' as int)], Run(conv, b, text, true).1);
    RestLonger(conv, true, b, GrowAll([], [Cmd('M' as int)]), text, true);
  }

  lemma {:induction false} NoGroups(conv: Conv, s: Scan, gs: seq<Group>)
    requires Shaped(conv, s, gs)
    ensures s.cmd == 0 <==> gs == []
  {
  }

  lemma {:induction false} FitsNow(conv: Conv, marked: bool, gs: seq<Group>, held: seq<Byte>, cap: nat)
    requires FineGroups(gs) && held == Stored(conv, marked, gs) && |held| <= cap
    ensures |Stored(conv, marked, gs)| <= cap
  {
  }

  lemma {:induction false} AheadStart(conv: Conv, s: Scan, text: seq<Byte>, polygon: bool)
    ensures Ahead(conv, Run(conv, s, text, polygon), [], s, text, polygon)
  {
    assert [] + Run(conv, s, text, polygon).1 == Run(conv, s, text, polygon).1;
  }

  lemma {:induction false} AheadGrows(conv: Conv, whole: (Scan, seq<Tok>), g0: seq<Group>, told: seq<Tok>, s: Scan, rest: seq<Byte>, polygon: bool)
    requires Ahead(conv, whole, told, s, rest, polygon)
    ensures GrowAll(g0, whole.1) == GrowAll(GrowAll(g0, told), Run(conv, s, rest, polygon).1)
  {
    hide Run;
    GrowJoin(g0, told, Run(conv, s, rest, polygon).1);
  }

  lemma {:induction false} RunTells(conv: Conv, s: Scan, gs: seq<Group>, text: seq<Byte>, polygon: bool)
    requires Shaped(conv, s, gs)
    ensures FineToks(Run(conv, s, text, polygon).1) && Follows(gs, Run(conv, s, text, polygon).1)
    decreases |text|
  {
    hide Shaped, Step, FineTok;
    if text != [] {
      var (t, toks) := Step(conv, s, text[0], polygon);
      StepShaped(conv, s, gs, text[0], polygon);
      StepTells(conv, s, gs, text[0], polygon);
      RunTells(conv, t, GrowAll(gs, toks), text[1..], polygon);
    }
  }

  lemma {:induction false} RestLonger(conv: Conv, marked: bool, s: Scan, gs: seq<Group>, rest: seq<Byte>, polygon: bool)
    requires Shaped(conv, s, gs) && FineGroups(gs)
    ensures var all := GrowAll(gs, Run(conv, s, rest, polygon).1);
            FineGroups(all) && |Stored(conv, marked, all)| >= |Stored(conv, marked, gs)|
  {
    hide Shaped, Run, Stored;
    RunTells(conv, s, gs, rest, polygon);
    StoredLonger(conv, marked, gs, Run(conv, s, rest, polygon).1);
  }

  /** The commands of a points attribute. */
  predicate PolyCmd(s: Scan) {
    s.cmd == 0 || s.cmd == 'M' as int || s.cmd == 'L' as int
  }

  lemma {:induction false} StepPoly(conv: Conv, s: Scan, c: Byte)
    requires PolyCmd(s)
    ensures PolyCmd(Step(conv, s, c, true).0)
  {
    hide NumberDone, Nargs;
    NumberDonePoly(conv, s);
    NumberDonePoly(conv, NumberBegin(s, c));
    if s.inNum { NumberDonePoly(conv, NumberBegin(NumberDone(conv, s).0, c)); }
  }

  lemma {:induction false} NumberDonePoly(conv: Conv, s: Scan)
    requires PolyCmd(s)
    ensures PolyCmd(NumberDone(conv, s).0)
  {
    hide Parse, Nargs;
  }

  /** What has been told so far, and what the rest of the text will add. */
  ghost predicate Ahead(conv: Conv, whole: (Scan, seq<Tok>), told: seq<Tok>, s: Scan, rest: seq<Byte>, polygon: bool) {
    whole == (Run(conv, s, rest, polygon).0, told + Run(conv, s, rest, polygon).1)
  }

  lemma {:induction false} AheadStep(conv: Conv, whole: (Scan, seq<Tok>), told: seq<Tok>, s: Scan, text: seq<Byte>, i: nat, polygon: bool)
    requires i < |text| && Ahead(conv, whole, told, s, text[i..], polygon)
    ensures var (t, toks) := Step(conv, s, text[i], polygon); Ahead(conv, whole, told + toks, t, text[i + 1..], polygon)
  {
    hide Step;
    var (t, toks) := Step(conv, s, text[i], polygon);
    assert text[i..][1..] == text[i + 1..];
    var more := Run(conv, t, text[i + 1..], polygon).1;
    assert told + (toks + more) == (told + toks) + more;
  }

  lemma {:induction false} AheadDone(conv: Conv, whole: (Scan, seq<Tok>), told: seq<Tok>, s: Scan, rest: seq<Byte>, polygon: bool)
    requires Ahead(conv, whole, told, s, rest, polygon) && (rest == [] || s.error)
    ensures whole == (s, told)
  {
    ErrorRuns(conv, s, rest, polygon);
    assert told + [] == told;
  }

  lemma {:induction false} ErrorRuns(conv: Conv, s: Scan, rest: seq<Byte>, polygon: bool)
    requires rest == [] || s.error
    ensures Run(conv, s, rest, polygon) == (s, [])
  {
    if rest != [] {
      ErrorRuns(conv, s, rest[1..], polygon);
      var none: seq<Tok> := [];
      assert none + none == none;
    }
  }
}
