/** Recording a path and replaying it executes what feeding its text straight to the flattener does. */
module PathReplay {
  import opened Prelude
  import opened Path
  import opened PathRecord
  import opened PathEnds
  import opened PathFlatten

  lemma {:induction false} RunJoin(conv: Conv, s: Scan, a: seq<Byte>, b: seq<Byte>, polygon: bool)
    ensures Run(conv, s, a + b, polygon) ==
            (Run(conv, Run(conv, s, a, polygon).0, b, polygon).0,
             Run(conv, s, a, polygon).1 + Run(conv, Run(conv, s, a, polygon).0, b, polygon).1)
    decreases |a|
  {
    hide Step;
    if a == [] {
      assert a + b == b;
      var none: seq<Tok> := [];
      assert none + Run(conv, s, b, polygon).1 == Run(conv, s, b, polygon).1;
    } else {
      var (t, toks) := Step(conv, s, a[0], polygon);
      assert (a + b)[1..] == a[1..] + b;
      RunJoin(conv, t, a[1..], b, polygon);
      var x, y := Run(conv, t, a[1..], polygon).1, Run(conv, Run(conv, s, a, polygon).0, b, polygon).1;
      assert toks + (x + y) == (toks + x) + y;
    }
  }

  lemma {:induction false} StepCmd(conv: Conv, s: Scan, c: Byte, polygon: bool)
    requires s.cmd != 0
    ensures Step(conv, s, c, polygon).0.cmd != 0
  {
    hide Fresh, NumberDone;
    if !s.error {
      if s.inNum {
        NumberDoneCmd(conv, s);
        FreshCmd(conv, NumberDone(conv, s).0, c, polygon);
      } else {
        FreshCmd(conv, s, c, polygon);
      }
    }
  }

  lemma {:induction false} FreshCmd(conv: Conv, s: Scan, c: Byte, polygon: bool)
    requires s.cmd != 0
    ensures Fresh(conv, s, c, polygon).0.cmd != 0
  {
    hide NumberDone;
    NumberDoneCmd(conv, NumberBegin(s, c));
    assert Nargs(0) < 0;
  }

  lemma {:induction false} NumberDoneCmd(conv: Conv, s: Scan)
    requires s.cmd != 0
    ensures NumberDone(conv, s).0.cmd != 0
  {
    hide Parse, Nargs;
  }

  lemma {:induction false} RunCmd(conv: Conv, s: Scan, text: seq<Byte>, polygon: bool)
    requires s.cmd != 0
    ensures Run(conv, s, text, polygon).0.cmd != 0
    decreases |text|
  {
    hide Step;
    if text != [] {
      StepCmd(conv, s, text[0], polygon);
      RunCmd(conv, Step(conv, s, text[0], polygon).0, text[1..], polygon);
    }
  }

  /** Feeding in two pieces is feeding the whole. */
  lemma {:induction false} FeedJoin(conv: Conv, s: Scan, a: seq<Byte>, b: seq<Byte>, polygon: bool)
    ensures var (t, toks) := Feed(conv, s, a, polygon);
            var (u, more) := Feed(conv, t, b, polygon);
            Feed(conv, s, a + b, polygon) == (u, toks + more)
  {
    hide Run;
    var (c, first) := Begin(s, polygon);
    RunJoin(conv, c, a, b, polygon);
    var (t, x) := Run(conv, c, a, polygon);
    var y := Run(conv, t, b, polygon).1;
    if polygon && !s.error { RunCmd(conv, c, a, polygon); }
    if s.error { ErrorRuns(conv, s, a, polygon); }
    var none: seq<Tok> := [];
    assert Begin(t, polygon) == (t, none);
    assert none + y == y;
    assert first + (x + y) == (first + x) + y;
  }

  /** The scanner and its groups after the whole text and the end of it. */
  ghost function Final(conv: Conv, text: seq<Byte>, polygon: bool): (Scan, seq<Group>) {
    var (t, toks) := Feed(conv, Start(), text, polygon);
    var (d, more) := FinishScan(conv, t, polygon);
    (d, GrowAll(GrowAll([], toks), more))
  }

  /** The recording and what it goes through on the way fit in cap bytes. */
  ghost predicate Fits(conv: Conv, gs: seq<Group>, polygon: bool, cap: nat) {
    && FineGroups(gs) && FineGroups(WholePart(gs))
    && |Stored(conv, polygon, gs)| <= cap
    && |Stored(conv, polygon, WholePart(gs))| + |Closing(polygon)| <= cap
  }

  lemma {:induction false} StartShaped(conv: Conv)
    ensures Shaped(conv, Start(), [])
  {
  }

  lemma {:induction false} FeedTells(conv: Conv, s: Scan, gs: seq<Group>, text: seq<Byte>, polygon: bool)
    requires Shaped(conv, s, gs)
    ensures var (t, toks) := Feed(conv, s, text, polygon);
            && Shaped(conv, t, GrowAll(gs, toks)) && FineToks(toks) && Follows(gs, toks)
            && (polygon && PolyCmd(s) ==> PolyCmd(t))
  {
    hide Shaped, Run, FineTok;
    var (b, first) := Begin(s, polygon);
    BeginShaped(conv, s, gs, polygon);
    RunShaped(conv, b, GrowAll(gs, first), text, polygon);
    RunTells(conv, b, GrowAll(gs, first), text, polygon);
    GrowJoin(gs, first, Run(conv, b, text, polygon).1);
    BeginFine(s, gs, polygon);
    if polygon && PolyCmd(s) { RunPoly(conv, b, text); }
  }

  lemma {:induction false} BeginFine(s: Scan, gs: seq<Group>, polygon: bool)
    ensures FineToks(Begin(s, polygon).1) && Follows(gs, Begin(s, polygon).1)
  {
  }

  lemma {:induction false} RunPoly(conv: Conv, s: Scan, text: seq<Byte>)
    requires PolyCmd(s)
    ensures PolyCmd(Run(conv, s, text, true).0)
    decreases |text|
  {
    hide Step, PolyCmd;
    if text != [] {
      StepPoly(conv, s, text[0]);
      RunPoly(conv, Step(conv, s, text[0], true).0, text[1..]);
    }
  }

  /** A text that failed early fails to the end, and one that outgrew the buffer early never fits it. */
  lemma {:induction false} FailedEarly(conv: Conv, a: seq<Byte>, b: seq<Byte>, polygon: bool, cap: nat)
    requires var (t, toks) := Feed(conv, Start(), a, polygon);
             t.error || (FineGroups(GrowAll([], toks)) && |Stored(conv, polygon, GrowAll([], toks))| > cap)
    ensures var (d, gs) := Final(conv, a + b, polygon); d.error || !Fits(conv, gs, polygon, cap)
  {
    hide Shaped, Stored, NumberDone, Feed, FineTok, PolyCmd;
    var (t, toks) := Feed(conv, Start(), a, polygon);
    FeedJoin(conv, Start(), a, b, polygon);
    StartShaped(conv);
    FeedTells(conv, Start(), [], a, polygon);
    StartPoly();
    if t.error {
      FeedError(conv, t, b, polygon);
    } else {
      var g := GrowAll([], toks);
      FeedTells(conv, t, g, b, polygon);
      var (u, more) := Feed(conv, t, b, polygon);
      GrowJoin([], toks, more);
      StoredLonger(conv, polygon, g, more);
      FinishShaped(conv, u, GrowAll(g, more), polygon);
      StoredLonger(conv, polygon, GrowAll(g, more), FinishScan(conv, u, polygon).1);
    }
  }

  lemma {:induction false} StartPoly()
    ensures PolyCmd(Start())
  {
  }

  lemma {:induction false} FeedError(conv: Conv, t: Scan, b: seq<Byte>, polygon: bool)
    requires t.error
    ensures Feed(conv, t, b, polygon).0 == t
  {
    ErrorRuns(conv, t, b, polygon);
  }

  /** The scanner and its groups after a text, before the end is known. */
  ghost function Told(conv: Conv, text: seq<Byte>, polygon: bool): (Scan, seq<Group>) {
    (Feed(conv, Start(), text, polygon).0, GrowAll([], Feed(conv, Start(), text, polygon).1))
  }

  ghost function Further(conv: Conv, s: Scan, gs: seq<Group>, text: seq<Byte>, polygon: bool): (Scan, seq<Group>) {
    (Feed(conv, s, text, polygon).0, GrowAll(gs, Feed(conv, s, text, polygon).1))
  }

  lemma {:induction false} ToldMore(conv: Conv, a: seq<Byte>, b: seq<Byte>, polygon: bool)
    ensures Told(conv, a + b, polygon) == Further(conv, Told(conv, a, polygon).0, Told(conv, a, polygon).1, b, polygon)
  {
    hide Feed;
    FeedJoin(conv, Start(), a, b, polygon);
    var (t, toks) := Feed(conv, Start(), a, polygon);
    GrowJoin([], toks, Feed(conv, t, b, polygon).1);
  }

  /** One more chunk, the first or a later one. */
  lemma {:induction false} ChunkTold(conv: Conv, chunks: seq<seq<Byte>>, i: nat, s: Scan, gs: seq<Group>, polygon: bool)
    requires i < |chunks|
    requires if i == 0 then s == Start() && gs == [] else (s, gs) == Told(conv, Flat(chunks[..i]), polygon)
    ensures Further(conv, s, gs, chunks[i], polygon) == Told(conv, Flat(chunks[..i + 1]), polygon)
  {
    hide Told, Feed;
    assert chunks[..i + 1][..i] == chunks[..i];
    if i == 0 {
      FirstTold(conv, chunks, polygon);
    } else {
      ToldMore(conv, Flat(chunks[..i]), chunks[i], polygon);
    }
  }

  lemma {:induction false} FirstTold(conv: Conv, chunks: seq<seq<Byte>>, polygon: bool)
    requires chunks != []
    ensures Further(conv, Start(), [], chunks[0], polygon) == Told(conv, Flat(chunks[..1]), polygon)
  {
    hide Feed;
    assert chunks[..1][..0] == [];
    assert [] + chunks[0] == chunks[0];
  }

  lemma {:induction false} FeedCmd(conv: Conv, s: Scan, text: seq<Byte>)
    requires !s.error
    ensures Feed(conv, s, text, true).0.cmd != 0
  {
    RunCmd(conv, Begin(s, true).0, text, true);
  }

  lemma {:induction false} FlatSplit(chunks: seq<seq<Byte>>, i: nat)
    requires i <= |chunks|
    ensures Flat(chunks) == Flat(chunks[..i]) + Flat(chunks[i..])
  {
    if i == |chunks| {
      assert chunks[..i] == chunks && chunks[i..] == [];
      var none: seq<Byte> := [];
      assert Flat(chunks) + none == Flat(chunks);
    } else {
      var n := |chunks| - 1;
      FlatSplit(chunks[..n], i);
      assert chunks[..n][..i] == chunks[..i] && chunks[..n][i..] == chunks[i..][..n - i] && chunks[i..][n - i] == chunks[n];
      assert (Flat(chunks[..i]) + Flat(chunks[i..][..n - i])) + chunks[n] == Flat(chunks[..i]) + (Flat(chunks[i..][..n - i]) + chunks[n]);
    }
  }

  /** A recorder fed a text in chunks. */
  method RecordChunks(conv: Conv, chunks: seq<seq<Byte>>, polygon: bool, cap: nat) returns (ok: bool, rec: seq<Byte>)
    requires chunks != []
    ensures var (d, gs) := Final(conv, Flat(chunks), polygon);
            && (ok <==> !d.error && Fits(conv, gs, polygon, cap))
            && (ok ==> Whole(WholePart(gs)) && rec == Stored(conv, polygon, WholePart(gs)) + Closing(polygon))
  {
    hide Shaped, Stored, NumberDone, Feed, FineTok, PolyCmd, WholePart, Whole, FinishScan, Told, Flat;
    var r := new Recorder(conv, cap);
    rec := [];
    var i := 0;
    NoneFine();
    while i < |chunks|
      invariant 0 <= i <= |chunks| && r.Valid() && !r.overflow && !r.sc.error && fresh(r) && fresh(r.buf)
      invariant r.conv == conv && r.buf.Length == cap && FineGroups(r.gs)
      invariant if i == 0 then r.sc == Start() && r.gs == [] && !r.marked
                else (r.sc, r.gs) == Told(conv, Flat(chunks[..i]), polygon) && r.marked == polygon
                     && (polygon ==> r.sc.cmd != 0)
    {
      ChunkTold(conv, chunks, i, r.sc, r.gs, polygon);
      if polygon { FeedCmd(conv, r.sc, chunks[i]); }
      ok := r.Feed(chunks[i], polygon);
      i := i + 1;
      if !ok {
        FlatSplit(chunks, i);
        TooMuch(conv, Flat(chunks[..i]), r.sc, r.gs, r.overflow, polygon, cap);
        FailedEarly(conv, Flat(chunks[..i]), Flat(chunks[i..]), polygon, cap);
        return false, [];
      }
    }
    assert chunks[..i] == chunks;
    FinalIs(conv, Flat(chunks), r.sc, r.gs, polygon);
    ok := r.Finish();
    if ok { rec := r.buf[..r.len]; }
  }

  lemma {:induction false} NoneFine()
    ensures FineGroups([])
  {
  }

  lemma {:induction false} FinalIs(conv: Conv, text: seq<Byte>, s: Scan, gs: seq<Group>, polygon: bool)
    requires (s, gs) == Told(conv, text, polygon)
    ensures var (d, toks) := FinishScan(conv, s, polygon); Final(conv, text, polygon) == (d, GrowAll(gs, toks))
  {
    hide Feed, FinishScan;
  }

  lemma {:induction false} TooMuch(conv: Conv, text: seq<Byte>, s: Scan, gs: seq<Group>, overflow: bool, polygon: bool, cap: nat)
    requires gs == Told(conv, text, polygon).1 && FineGroups(gs)
    requires if overflow then |Stored(conv, polygon, gs)| > cap else s == Told(conv, text, polygon).0 && s.error
    ensures var (t, toks) := Feed(conv, Start(), text, polygon);
            t.error || (FineGroups(GrowAll([], toks)) && |Stored(conv, polygon, GrowAll([], toks))| > cap)
  {
    hide Feed, Stored;
  }

  /** A flattener fed the text directly. */
  method FlattenChunks(conv: Conv, chunks: seq<seq<Byte>>, polygon: bool) returns (ok: bool, log: seq<Exec>)
    requires chunks != []
    ensures var (d, gs) := Final(conv, Flat(chunks), polygon);
            ok == !d.error && (ok ==> log == Direct(WholePart(gs)) + ClosingExec(polygon))
  {
    hide Shaped, NumberDone, Feed, PolyCmd, WholePart, Direct, FinishScan, Told, Flat;
    var f := new Flattener(conv);
    StartPoly();
    var i := 0;
    while i < |chunks|
      invariant 0 <= i <= |chunks| && f.Valid() && fresh(f) && fresh(f.args) && f.conv == conv
      invariant f.polygonMode == (polygon && i > 0) && (polygon ==> PolyCmd(f.sc))
      invariant if i == 0 then f.sc == Start() && f.gs == [] else (f.sc, f.gs) == Told(conv, Flat(chunks[..i]), polygon)
    {
      ChunkTold(conv, chunks, i, f.sc, f.gs, polygon);
      ok := f.Feed(chunks[i], polygon);
      i := i + 1;
    }
    assert chunks[..i] == chunks;
    FinalIs(conv, Flat(chunks), f.sc, f.gs, polygon);
    ok := f.Finish();
    log := f.log;
  }

  /** Record then replay, against a direct feed: for every path or points text, however each side cuts
      it, a recording that was accepted replays completely and executes the same commands with equal
      arguments as the direct feed; and it is accepted exactly when the text is well formed and fits. */
  method RecordAndReplay(conv: Conv, a: seq<seq<Byte>>, b: seq<seq<Byte>>, polygon: bool, cap: nat)
    returns (recorded: bool, fed: bool, replayed: bool, viaRecording: seq<Exec>, direct: seq<Exec>)
    requires a != [] && b != [] && Flat(a) == Flat(b)
    ensures recorded <==> fed && Fits(conv, Final(conv, Flat(a), polygon).1, polygon, cap)
    ensures recorded ==> replayed && SameExecs(viaRecording, direct)
  {
    hide Final, Stored, WholePart, Whole, SameExecs, Direct, Flat;
    var rec;
    recorded, rec := RecordChunks(conv, a, polygon, cap);
    fed, direct := FlattenChunks(conv, b, polygon);
    var f := new Flattener(conv);
    assert f.log == [];
    replayed := f.ReplayAll(rec);
    viaRecording := f.log;
    if recorded { Agrees(conv, Final(conv, Flat(a), polygon).1, polygon, rec); }
  }

  lemma {:induction false} Agrees(conv: Conv, gs: seq<Group>, polygon: bool, rec: seq<Byte>)
    requires FineGroups(WholePart(gs)) && Whole(WholePart(gs))
    requires rec == Stored(conv, polygon, WholePart(gs)) + Closing(polygon)
    ensures Replay(conv, rec).0
    ensures SameExecs([] + Replay(conv, rec).1, Direct(WholePart(gs)) + ClosingExec(polygon))
  {
    hide WholePart, Whole, SameExecs, Direct, Replay, Recording;
    ReplayIsDirect(conv, WholePart(gs), polygon);
    assert [] + Replay(conv, rec).1 == Replay(conv, rec).1;
  }
}
