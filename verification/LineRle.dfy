/** The plain run-length line codec: (value, run length - 1) pairs, without a table byte. */
module LineRle {
  import opened Prelude
  import opened HstxLine

  /** The pixels a span list shows on a line of `width`: extra pixels are cut, missing ones are 0. */
  ghost function Painted(spans: seq<Byte>, width: nat): (px: seq<Byte>)
    ensures |px| == width
  {
    var all := Expand(spans);
    seq<Byte>(width, x requires 0 <= x => if x < |all| then all[x] else 0)
  }

  lemma {:induction false} PaintedSplit(spans: seq<Byte>, width: nat)
    ensures width == 0 || |spans| < 2 ==> Painted(spans, width) == Repeat(0, width)
    ensures width > 0 && |spans| >= 2 ==>
              var n := Min(Count(spans[1]), width);
              Painted(spans, width) == Repeat(spans[0], n) + Painted(spans[2..], width - n)
  {
  }

  /** What was encoded is what is shown, on a line of the same width. */
  lemma {:induction false} DecodesEncoded(px: seq<Byte>)
    ensures Painted(Runs(px), |px|) == px
  {
    hide Runs, Expand;
    ExpandRuns(px);
  }

  /** The fewest span bytes that show px, or 0 when no span list that short exists. */
  method EncodeLine(px: seq<Byte>, out: array<Byte>, max: nat) returns (n: nat)
    requires max <= out.Length
    modifies out
    ensures n == if |Runs(px)| <= max then |Runs(px)| else 0
    ensures n > 0 ==> out[..n] == Runs(px) && Expand(out[..n]) == px
    ensures n == 0 ==> px == [] || forall other: seq<Byte> :: |other| % 2 == 0 && Expand(other) == px ==> |other| > max
  {
    hide Runs, Expand;
    ExpandRuns(px);
    forall other: seq<Byte> | |other| % 2 == 0 && Expand(other) == px ensures |Runs(px)| <= |other| {
      RunsShortest(px, other);
    }
    RunsNone(px);
    n := EncodeRuns(px, out, max);
  }

  lemma {:induction false} RunsNone(px: seq<Byte>)
    ensures Runs(px) == [] ==> px == []
  {
  }

  method EncodeRuns(px: seq<Byte>, out: array<Byte>, max: nat) returns (n: nat)
    requires max <= out.Length
    modifies out
    ensures n == if |Runs(px)| <= max then |Runs(px)| else 0
    ensures n > 0 ==> out[..n] == Runs(px)
  {
    hide Runs;
    n := 0;
    var i := 0;
    assert px[0..] == px && out[..0] == [];
    while i < |px|
      invariant 0 <= i <= |px| && n <= max
      invariant out[..n] + Runs(px[i..]) == Runs(px)
      invariant i > 0 ==> n > 0
    {
      var run := MeasureRun(px, i);
      RunFound(px, i, run);
      if n + 2 > max { return 0; }
      ghost var before := out[..n];
      out[n] := px[i];
      out[n + 1] := run - 1;
      n := n + 2;
      assert out[..n] == before + [px[i], run - 1];
      i := i + run;
    }
    RunsEmpty(px, i);
  }

  /** Exactly `width` pixels are written, whatever the spans hold. */
  method DecodeLine(spans: seq<Byte>, px: array<Byte>, width: nat)
    requires width <= px.Length
    modifies px
    ensures px[..width] == Painted(spans, width)
    ensures px[width..] == old(px[width..])
  {
    hide Painted, Count;
    var x, i := 0, 0;
    assert spans[0..] == spans;
    while i + 1 < |spans| && x < width
      invariant 0 <= x <= width && 0 <= i <= |spans|
      invariant px[..x] + Painted(spans[i..], width - x) == Painted(spans, width)
      invariant px[width..] == old(px[width..])
    {
      var run: nat := Count(spans[i + 1]);
      PaintedSplit(spans[i..], width - x);
      if run > width - x { run := width - x; }
      ghost var before := px[..x];
      Set(px, x, run, spans[i]);
      Dropped(spans, i, 2);
      assert px[..x + run] == before + Repeat(spans[i], run);
      assert spans[i..][2..] == spans[i + 2..];
      x := x + run;
      i := i + 2;
    }
    PaintedSplit(spans[i..], width - x);
    ghost var before := px[..x];
    if x < width { Set(px, x, width - x, 0); }
    assert px[..width] == before + Repeat(0, width - x);
  }

  method Set(px: array<Byte>, at: nat, n: nat, v: Byte)
    requires at + n <= px.Length
    modifies px
    ensures px[..] == old(px[..at]) + Repeat(v, n) + old(px[at + n..])
  {
    forall k | 0 <= k < n { px[at + k] := v; }
  }
}
