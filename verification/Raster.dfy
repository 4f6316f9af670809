/** The band rasteriser (raster.c): it paints into the rows of one band of the screen. Every filling
    method is proved against a pointwise definition of its shape that does not mention the band, so
    the picture does not depend on how the screen is cut into bands. */
module Raster {
  import opened Prelude
  import opened RasterMath
  import opened Polygon

  /** How a covered pixel changes: opaque, or blended with what is there. */
  datatype Ink = Ink(idx: Byte, alpha: nat, blend: Byte -> Byte) {
    function On(bg: Byte): (r: Byte)
      ensures r == bg || r == idx || r == blend(bg)
      ensures (alpha == 0 ==> r == bg) && (alpha == 255 ==> r == idx) && (0 < alpha && alpha != 255 ==> r == blend(bg))
    {
      if alpha == 0 then bg else if alpha == 255 then idx else blend(bg)
    }
  }

  // ---- discs and rings, pointwise ----

  function Dist2(cx: int, cy: int, i: int, k: int): int { Sq(Centre(i) - cx) + Sq(Centre(k) - cy) }

  predicate InDisc(cx: int, cy: int, r: int, i: int, k: int) { r > 0 && Dist2(cx, cy, i, k) <= Sq(r) }

  /** Inside the outer circle and outside the inner one; a disc when the stroke reaches the centre. */
  predicate InRing(cx: int, cy: int, r: int, w: int, i: int, k: int) {
    && w > 0 && r >= 0 && InDisc(cx, cy, r + w / 2, i, k)
    && !InDisc(cx, cy, r - w / 2, i, k)
  }

  lemma SqNonNeg(x: int)
    ensures Sq(x) >= 0 && Sq(-x) == Sq(x)
  {
    SqMono(0, x);
  }

  /** On a row within the circle, the centres inside are those within the half-width. */
  lemma {:induction false} DiscRow(cx: int, cy: int, r: int, k: int, hw: int, i: int)
    requires r > 0 && hw >= 0 && Sq(hw) <= Sq(r) - Sq(Centre(k) - cy) < Sq(hw + 1)
    ensures InDisc(cx, cy, r, i, k) <==> PxFirst(cx - hw) <= i < PxFirst(cx + hw + 1)
    ensures InDisc(cx, cy, r, i, k) <==> cx - hw <= Centre(i) <= cx + hw
  {
    hide Sq;
    RootBound(Sq(r) - Sq(Centre(k) - cy), hw, Centre(i) - cx);
    PxFirstIsFirst(cx - hw, i);
    PxFirstIsFirst(cx + hw + 1, i);
  }

  lemma {:induction false} DiscRowEmpty(cx: int, cy: int, r: int, k: int, i: int)
    requires Sq(Centre(k) - cy) > Sq(r)
    ensures !InDisc(cx, cy, r, i, k)
  {
    hide Sq;
    SqNonNeg(Centre(i) - cx);
  }

  /** Rows outside [PxFirst(cy-r), PxFirst(cy+r+1)) miss the circle. */
  lemma {:induction false} DiscRows(cx: int, cy: int, r: int, k: int, i: int)
    requires InDisc(cx, cy, r, i, k)
    ensures PxFirst(cy - r) <= k < PxFirst(cy + r + 1)
  {
    hide Sq;
    SqNonNeg(Centre(i) - cx);
    PxFirstIsFirst(cy - r, k);
    PxFirstIsFirst(cy + r + 1, k);
    if Centre(k) < cy - r {
      SqLess(r, cy - Centre(k));
    } else if Centre(k) > cy + r {
      SqLess(r, Centre(k) - cy);
    }
    SqNonNeg(Centre(k) - cy);
  }

  lemma SqLess(a: int, b: int)
    requires 0 <= a < b
    ensures Sq(a) < Sq(b) && Sq(-b) == Sq(b)
  {
    SqMono(a + 1, b);
  }

  /** The list with its tail moved up by one and v in the gap. */
  lemma {:induction false} Slid(c: seq<int>, l: seq<int>, v: int, j: nat)
    requires j <= |l| && |c| == |l| + 1 && c[j] == v
    requires forall t :: 0 <= t < j ==> c[t] == l[t]
    requires forall t :: j <= t < |l| ==> c[t + 1] == l[t]
    ensures c == l[..j] + [v] + l[j..]
  {
    forall t | j < t < |c| ensures c[t] == l[t - 1] {
      assert c[(t - 1) + 1] == l[t - 1];
    }
  }

  class Raster {
    const band: array2<Byte>
    const height: nat
    /** Crossing lists of the band's rows, CAP entries each, and their lengths. */
    const cross: array<int>
    const ncross: array<int>
    var y0: int
    var lines: nat
    var clipX0: nat
    var clipY0: nat
    var clipX1: nat
    var clipY1: nat

    function Width(): nat { band.Length1 }

    ghost predicate Valid()
      reads this
    {
      && lines <= band.Length0
      && clipX0 <= clipX1 <= Width() && clipY0 <= clipY1 <= height
      && cross != ncross && ncross.Length >= band.Length0 && cross.Length >= band.Length0 * CAP
    }

    constructor (b: array2<Byte>, h: nat)
      ensures Valid() && band == b && height == h && lines == 0
      ensures clipX0 == clipY0 == 0 && clipX1 == b.Length1 && clipY1 == h
    {
      band, height := b, h;
      cross := new int[b.Length0 * CAP];
      ncross := new int[b.Length0];
      y0, lines := 0, 0;
      clipX0, clipY0, clipX1, clipY1 := 0, 0, b.Length1, h;
    }

    /** raster_begin_band: rows [y, y+n) of the screen, cleared. */
    method BeginBand(y: int, n: int, bg: Byte)
      requires Valid()
      modifies this`y0, this`lines, band
      ensures Valid() && y0 == y && lines == if n < 0 then 0 else if n > band.Length0 then band.Length0 else n
      ensures forall p, x :: 0 <= p < band.Length0 && 0 <= x < band.Length1 ==>
                band[p, x] == if p < lines then bg else old(band[p, x])
    {
      y0 := y;
      lines := if n > band.Length0 then band.Length0 else if n < 0 then 0 else n;
      forall p, x | 0 <= p < lines && 0 <= x < band.Length1 {
        band[p, x] := bg;
      }
    }

    method SetClip(x0: int, y0: int, x1: int, y1: int)
      requires Valid()
      modifies this`clipX0, this`clipY0, this`clipX1, this`clipY1
      ensures Valid()
      ensures forall i, k :: 0 <= i < Width() && 0 <= k < height ==>
                (Shows(i, k) <==> x0 <= i < x1 && y0 <= k < y1)
    {
      clipX0, clipX1 := Clamp(x0, 0, Width()), Clamp(x1, 0, Width());
      clipY0, clipY1 := Clamp(y0, 0, height), Clamp(y1, 0, height);
      if clipX1 < clipX0 { clipX1 := clipX0; }
      if clipY1 < clipY0 { clipY1 := clipY0; }
    }

    /** The clip rectangle lets pixel (i, k) be painted. */
    predicate Shows(i: int, k: int)
      reads this`clipX0, this`clipX1, this`clipY0, this`clipY1
    {
      clipX0 <= i < clipX1 && clipY0 <= k < clipY1
    }

    /** raster_span: pixels [x0, x1) of row y, cut to the band and the clip. */
    method Span(y: int, x0: int, x1: int, ink: Ink)
      requires Valid()
      modifies band
      ensures forall p, x :: 0 <= p < band.Length0 && 0 <= x < band.Length1 ==>
                band[p, x] == if p < lines && y0 + p == y && x0 <= x < x1 && Shows(x, y)
                              then ink.On(old(band[p, x])) else old(band[p, x])
    {
      if ink.alpha == 0 { return; }
      if y < y0 || y >= y0 + lines || y < clipY0 || y >= clipY1 { return; }
      var a := if x0 < clipX0 then clipX0 else x0;
      var b := if x1 > clipX1 then clipX1 else x1;
      if b <= a { return; }
      var row := y - y0;
      for i := a to b
        invariant forall p, x :: 0 <= p < band.Length0 && 0 <= x < band.Length1 ==>
                    band[p, x] == if p == row && a <= x < i then ink.On(old(band[p, x])) else old(band[p, x])
      {
        band[row, i] := ink.On(band[row, i]);
      }
    }

    /** Rows of the screen that band and clip let through: [lo, hi). */
    method BandRows() returns (lo: int, hi: int)
      requires Valid()
      ensures lo == (if y0 < clipY0 then clipY0 else y0) && hi == (if y0 + lines > clipY1 then clipY1 else y0 + lines)
    {
      lo, hi := y0, y0 + lines;
      if lo < clipY0 { lo := clipY0; }
      if hi > clipY1 { hi := clipY1; }
    }

    method FillCircle(cx: int, cy: int, r: int, ink: Ink)
      requires Valid() && -0x8000_0000 <= r < 0x8000_0000
      modifies band
      ensures forall p, x :: 0 <= p < band.Length0 && 0 <= x < band.Length1 ==>
                band[p, x] == if p < lines && Shows(x, y0 + p) && InDisc(cx, cy, r, x, y0 + p)
                              then ink.On(old(band[p, x])) else old(band[p, x])
    {
      hide InDisc, Sq, PxFirst;
      if r <= 0 || ink.alpha == 0 {
        NoDisc(cx, cy, r);
        return;
      }
      var lo, hi := BandRows();
      var ya, yb := PxFirst(cy - r), PxFirst(cy + r + 1);
      if ya < lo { ya := lo; }
      if yb > hi { yb := hi; }
      var y := ya;
      while y < yb
        invariant ya <= y && (y <= yb || y == ya)
        invariant forall p, x :: 0 <= p < band.Length0 && 0 <= x < band.Length1 ==>
                    band[p, x] == if p < lines && ya <= y0 + p < y && Shows(x, y0 + p) && InDisc(cx, cy, r, x, y0 + p)
                                  then ink.On(old(band[p, x])) else old(band[p, x])
      {
        var d2 := Sq(Centre(y) - cy);
        if d2 > Sq(r) {
          forall x ensures !InDisc(cx, cy, r, x, y) { DiscRowEmpty(cx, cy, r, y, x); }
        } else {
          SquareFits(r, Centre(y) - cy);
          var hw := Isqrt64(Sq(r) - d2);
          forall x ensures InDisc(cx, cy, r, x, y) <==> PxFirst(cx - hw) <= x < PxFirst(cx + hw + 1) {
            DiscRow(cx, cy, r, y, hw, x);
          }
          Span(y, PxFirst(cx - hw), PxFirst(cx + hw + 1), ink);
        }
        y := y + 1;
      }
      forall x, k | InDisc(cx, cy, r, x, k)
        ensures PxFirst(cy - r) <= k < PxFirst(cy + r + 1)
      {
        DiscRows(cx, cy, r, k, x);
      }
    }

    method StrokeCircle(cx: int, cy: int, r: int, w: int, ink: Ink)
      requires Valid() && r + w < 0x8000_0000
      modifies band
      ensures forall p, x :: 0 <= p < band.Length0 && 0 <= x < band.Length1 ==>
                band[p, x] == if p < lines && Shows(x, y0 + p) && InRing(cx, cy, r, w, x, y0 + p)
                              then ink.On(old(band[p, x])) else old(band[p, x])
    {
      hide InDisc, Sq, PxFirst;
      if w <= 0 || r < 0 || ink.alpha == 0 { return; }
      var ro, ri := r + w / 2, r - w / 2;
      NoDisc(cx, cy, ro);
      NoDisc(cx, cy, ri);
      if ro <= 0 { return; }
      if ri <= 0 {
        FillCircle(cx, cy, ro, ink);
        return;
      }
      var lo, hi := BandRows();
      var ya, yb := PxFirst(cy - ro), PxFirst(cy + ro + 1);
      if ya < lo { ya := lo; }
      if yb > hi { yb := hi; }
      var y := ya;
      while y < yb
        invariant ya <= y && (y <= yb || y == ya)
        invariant forall p, x :: 0 <= p < band.Length0 && 0 <= x < band.Length1 ==>
                    band[p, x] == if p < lines && ya <= y0 + p < y && Shows(x, y0 + p) && InRing(cx, cy, r, w, x, y0 + p)
                                  then ink.On(old(band[p, x])) else old(band[p, x])
      {
        RingRow(cx, cy, r, w, y, ink);
        y := y + 1;
      }
      forall x, k | InDisc(cx, cy, ro, x, k)
        ensures PxFirst(cy - ro) <= k < PxFirst(cy + ro + 1)
      {
        DiscRows(cx, cy, ro, k, x);
      }
    }

    /** One row of a ring whose inner radius is positive. */
    method RingRow(cx: int, cy: int, r: int, w: int, y: int, ink: Ink)
      requires Valid() && w > 0 && r - w / 2 > 0 && r + w < 0x8000_0000
      modifies band
      ensures forall p, x :: 0 <= p < band.Length0 && 0 <= x < band.Length1 ==>
                band[p, x] == if p < lines && y0 + p == y && Shows(x, y) && InRing(cx, cy, r, w, x, y)
                              then ink.On(old(band[p, x])) else old(band[p, x])
    {
      hide InDisc, Sq, PxFirst;
      var ro, ri := r + w / 2, r - w / 2;
      var d2 := Sq(Centre(y) - cy);
      if d2 > Sq(ro) {
        forall x ensures !InDisc(cx, cy, ro, x, y) { DiscRowEmpty(cx, cy, ro, y, x); }
        return;
      }
      SquareFits(ro, Centre(y) - cy);
      var ho := Isqrt64(Sq(ro) - d2);
      forall x ensures InDisc(cx, cy, ro, x, y) <==> PxFirst(cx - ho) <= x < PxFirst(cx + ho + 1) {
        DiscRow(cx, cy, ro, y, ho, x);
      }
      if d2 > Sq(ri) {
        forall x ensures !InDisc(cx, cy, ri, x, y) { DiscRowEmpty(cx, cy, ri, y, x); }
        Span(y, PxFirst(cx - ho), PxFirst(cx + ho + 1), ink);
      } else {
        SquareFits(ri, Centre(y) - cy);
        var hin := Isqrt64(Sq(ri) - d2);
        forall x ensures InRing(cx, cy, r, w, x, y) <==>
            PxFirst(cx - ho) <= x < PxFirst(cx - hin) || PxFirst(cx + hin + 1) <= x < PxFirst(cx + ho + 1)
        {
          RingSplit(cx, cy, r, w, y, ho, hin, x);
        }
        Order(cx, ho, hin);
        Span(y, PxFirst(cx - ho), PxFirst(cx - hin), ink);
        Span(y, PxFirst(cx + hin + 1), PxFirst(cx + ho + 1), ink);
      }
    }

    // ---- polygons ----

    /** The crossings stored for row s of the band. */
    ghost function Row(s: nat): seq<int>
      reads this, cross, ncross
    {
      if s < ncross.Length && 0 <= ncross[s] && s * CAP + ncross[s] <= cross.Length
      then cross[s * CAP..s * CAP + ncross[s]] else []
    }

    /** Rows [0, n) hold exactly the kept crossings of these edges at screen rows sub0, sub0+1, .. */
    ghost predicate Walked(es: seq<Edge>, sub0: int, n: nat, xlo: int, xhi: int)
      reads this, cross, ncross
    {
      && n <= ncross.Length
      && forall s :: 0 <= s < n ==> 0 <= ncross[s] <= CAP && Row(s) == Kept(es, sub0 + s, xlo, xhi)
    }

    lemma RowRoom(s: nat)
      requires Valid() && s < band.Length0
      ensures s * CAP + CAP <= cross.Length
    {
    }

    /** Appends one crossing to row s, or drops it when the row is full. */
    method Keep(s: nat, c: int)
      requires Valid() && s < band.Length0 && 0 <= ncross[s] <= CAP
      modifies cross, ncross
      ensures 0 <= ncross[s] <= CAP && Row(s) == PutEntry(old(Row(s)), [c])
      ensures forall t :: 0 <= t < band.Length0 && t != s ==>
                ncross[t] == old(ncross[t]) && (0 <= ncross[t] <= CAP ==> Row(t) == old(Row(t)))
    {
      RowRoom(s);
      if ncross[s] < CAP {
        cross[s * CAP + ncross[s]] := c;
        ncross[s] := ncross[s] + 1;
      }
    }

    /** walk_edge: the crossings of one edge with rows [sub0, sub0+n). */
    method WalkEdge(e: Edge, sub0: int, n: nat, xlo: int, xhi: int, ghost es: seq<Edge>)
      requires Valid() && n <= band.Length0 && Walked(es, sub0, n, xlo, xhi)
      modifies cross, ncross
      ensures Walked(es + [e], sub0, n, xlo, xhi)
    {
      hide Kept, PutEntry, Row, StartX, StepX, RowOf, Clamp;
      forall s: int ensures Kept(es + [e], s, xlo, xhi) == PutEntry(Kept(es, s, xlo, xhi), Entry(e, s, xlo, xhi)) {
        KeptAppend(es, e, s, xlo, xhi);
      }
      PutNothing();
      if e.ya == e.yb { return; }
      var d := Down(e);
      var kg, ke := RowOf(d.ya), RowOf(d.yb);
      var k0 := if kg > sub0 then kg else sub0;
      var k1 := if ke < sub0 + n then ke else sub0 + n;
      if k0 >= k1 { return; }
      var step := StepX(e);
      var x := StartX(e) + (k0 - kg) * step;
      var k := k0;
      while k < k1
        invariant k0 <= k <= k1
        invariant x == StartX(e) + (k - kg) * step
        invariant forall s :: 0 <= s < n ==> 0 <= ncross[s] <= CAP
        invariant forall s :: 0 <= s < n ==>
                    Row(s) == if k0 <= sub0 + s < k then Kept(es + [e], sub0 + s, xlo, xhi) else Kept(es, sub0 + s, xlo, xhi)
      {
        assert Ceil16(x) == CrossX(e, k);
        Keep(k - sub0, Pack(Clamp(Ceil16(x), xlo, xhi), Dir(e)));
        NextX(k, kg, step);
        x := x + step;
        k := k + 1;
      }
    }

    lemma NextX(k: int, kg: int, step: int)
      ensures (k + 1 - kg) * step == (k - kg) * step + step
    {
    }

    method ClearRows(n: nat)
      requires n <= ncross.Length
      modifies ncross
      ensures forall t :: 0 <= t < n ==> ncross[t] == 0
    {
      for s := 0 to n
        invariant forall t :: 0 <= t < s ==> ncross[t] == 0
      {
        ncross[s] := 0;
      }
    }

    /** walk_stream: the crossings of every edge of the stream. */
    method WalkStream(vs: seq<Vertex>, sub0: int, n: nat, xlo: int, xhi: int)
      requires Valid() && n <= band.Length0 && forall s :: 0 <= s < n ==> ncross[s] == 0
      modifies cross, ncross
      ensures Walked(Edges(vs), sub0, n, xlo, xhi)
    {
      hide Kept, Row;
      var pen := Pen(0, 0, 0, 0, 0);
      ghost var es: seq<Edge> := [];
      EmptyRows(sub0, n, xlo, xhi);
      for i := 0 to |vs|
        invariant (pen, es) == Trace(vs[..i])
        invariant Walked(es, sub0, n, xlo, xhi)
      {
        var v := vs[i];
        assert vs[..i + 1][..i] == vs[..i];
        if v.x == BREAK {
          if pen.nv >= 2 {
            WalkEdge(Edge(pen.px, pen.py, pen.sx, pen.sy), sub0, n, xlo, xhi, es);
          }
          assert pen.nv < 2 ==> es + Closing(pen) == es;
          es := es + Closing(pen);
          pen := pen.(nv := 0);
        } else {
          if pen.nv == 0 {
            pen := pen.(sx := v.x, sy := v.y);
          } else {
            WalkEdge(Edge(pen.px, pen.py, v.x, v.y), sub0, n, xlo, xhi, es);
            es := es + [Edge(pen.px, pen.py, v.x, v.y)];
          }
          pen := pen.(px := v.x, py := v.y, nv := pen.nv + 1);
        }
      }
      assert vs[..|vs|] == vs;
      assert pen.nv < 2 ==> es + Closing(pen) == es;
      if pen.nv >= 2 {
        WalkEdge(Edge(pen.px, pen.py, pen.sx, pen.sy), sub0, n, xlo, xhi, es);
      }
    }

    lemma EmptyRows(sub0: int, n: nat, xlo: int, xhi: int)
      requires Valid() && n <= band.Length0 && forall s :: 0 <= s < n ==> ncross[s] == 0
      ensures Walked([], sub0, n, xlo, xhi)
    {
    }

    /** sort_crossings: insertion sort of cross[o..o+n] in place. */
    method SortCrossings(o: nat, n: nat)
      requires o + n <= cross.Length
      modifies cross
      ensures cross[o..o + n] == SortOf(old(cross[o..o + n]))
      ensures forall t :: 0 <= t < cross.Length && !(o <= t < o + n) ==> cross[t] == old(cross[t])
    {
      ghost var l := cross[o..o + n];
      var i := 0;
      while i < n
        invariant i <= n && cross[o..o + i] == SortOf(l[..i])
        invariant forall t :: 0 <= t < cross.Length && !(o <= t < o + i) ==> cross[t] == old(cross[t])
      {
        assert l[..i + 1][..i] == l[..i] && cross[o + i] == l[i];
        SortSorts(l[..i]);
        InsertNext(o, i);
        i := i + 1;
      }
      assert l[..n] == l;
    }

    /** Moves cross[o+i] down to its place among the sorted entries before it. */
    method InsertNext(o: nat, i: nat)
      requires o + i < cross.Length && Sorted(cross[o..o + i])
      modifies cross
      ensures cross[o..o + i + 1] == Insert(old(cross[o..o + i]), old(cross[o + i]))
      ensures forall t :: 0 <= t < cross.Length && !(o <= t <= o + i) ==> cross[t] == old(cross[t])
    {
      hide Insert, Sorted;
      ghost var l := cross[o..o + i];
      var v := cross[o + i];
      var j := i;
      while j > 0 && cross[o + j - 1] > v
        invariant 0 <= j <= i
        invariant forall t :: 0 <= t < j ==> cross[o + t] == l[t]
        invariant forall t :: j <= t < i ==> cross[o + t + 1] == l[t]
        invariant forall t :: j <= t < i ==> l[t] > v
        invariant forall t :: 0 <= t < cross.Length && !(o <= t <= o + i) ==> cross[t] == old(cross[t])
      {
        cross[o + j] := cross[o + j - 1];
        j := j - 1;
      }
      cross[o + j] := v;
      InsertAt(l, v, j);
      Slid(cross[o..o + i + 1], l, v, j);
    }

    /** One row of the sweep: pixels whose centres fill under the row's crossings change, once. */
    method SweepRow(o: nat, n: nat, y: int, rule: Rule, ink: Ink)
      requires Valid() && o + n <= cross.Length
      requires Sorted(cross[o..o + n])
      modifies band
      ensures forall p, x :: 0 <= p < band.Length0 && 0 <= x < band.Length1 ==>
                (y0 + p == y ==> Total(cross[o..o + n]) == 0) ==>
                band[p, x] == if p < lines && y0 + p == y && Shows(x, y) && Fills(rule, WindOf(cross[o..o + n], Centre(x)))
                              then ink.On(old(band[p, x])) else old(band[p, x])
    {
      hide WindOf, Total, EntryX, PxFirst, Fills;
      ghost var l := cross[o..o + n];
      var wind, xs, inside := 0, 0, false;
      SweepStarts(l, rule);
      for i := 0 to n
        invariant wind == Total(l[..i]) && Swept(l[..i], rule, inside, xs)
        invariant forall p, x :: 0 <= p < band.Length0 && 0 <= x < band.Length1 ==>
                    band[p, x] == if p < lines && y0 + p == y && Shows(x, y) && Covered(l[..i], rule, inside, xs, Centre(x))
                                  then ink.On(old(band[p, x])) else old(band[p, x])
      {
        var c := cross[o + i];
        assert c == l[i];
        WindStep(l, i, 0);
        SweepStep(l, i, rule, inside, xs);
        var x := EntryX(c);
        wind := wind + EntryDir(c);
        var now := Fills(rule, wind);
        if now && !inside {
          xs := x;
        } else if !now && inside {
          forall i ensures xs <= Centre(i) < x <==> PxFirst(xs) <= i < PxFirst(x) {
            PxFirstIsFirst(xs, i);
            PxFirstIsFirst(x, i);
          }
          Span(y, PxFirst(xs), PxFirst(x), ink);
        }
        inside := now;
      }
      assert l[..n] == l;
      if Total(l) == 0 { SweepEnds(l, rule, inside, xs); }
    }

    /** The crossing x clamp of walk_begin. */
    function XLo(): int
      reads this`clipX0
    {
      clipX0 * 8 - 8
    }

    function XHi(): int
      reads this`clipX1
    {
      clipX1 * 8 + 8
    }

    /** No crossing of band row p is dropped, if it is one of the screen rows [lo, hi). */
    ghost predicate Settled(vs: seq<Vertex>, lo: int, hi: int, p: int)
      reads this
    {
      lo <= y0 + p < hi ==> FitsRow(Edges(vs), y0 + p, XLo(), XHi())
    }

    /** Sort and sweep of the crossings of screen row y, which are row s of the buffer. */
    method FillRow(ghost vs: seq<Vertex>, s: nat, y: int, rule: Rule, ink: Ink)
      requires Valid() && s < band.Length0 && 0 <= ncross[s] <= CAP && Row(s) == Kept(Edges(vs), y, XLo(), XHi())
      modifies band, cross
      ensures forall p, x :: 0 <= p < band.Length0 && 0 <= x < band.Length1 ==>
                (y0 + p == y ==> FitsRow(Edges(vs), y, XLo(), XHi())) ==>
                band[p, x] == if p < lines && y0 + p == y && Shows(x, y) && Inside(Edges(vs), rule, x, y)
                              then ink.On(old(band[p, x])) else old(band[p, x])
      ensures forall t :: 0 <= t < band.Length0 && t != s && 0 <= ncross[t] <= CAP ==> Row(t) == old(Row(t))
    {
      hide Edges, Kept, RowList, Winding, FitsRow, WindOf, Total, Sorted;
      RowRoom(s);
      if FitsRow(Edges(vs), y, XLo(), XHi()) { RowFills(vs, y, XLo(), XHi()); }
      if ncross[s] < 2 { return; }
      SortRow(s);
      SweepRow(s * CAP, ncross[s], y, rule, ink);
    }

    method SortRow(s: nat)
      requires Valid() && s < band.Length0 && 0 <= ncross[s] <= CAP
      modifies cross
      ensures Row(s) == SortOf(old(Row(s))) && Sorted(Row(s)) && Row(s) == cross[s * CAP..s * CAP + ncross[s]]
      ensures s * CAP + ncross[s] <= cross.Length
      ensures forall t :: 0 <= t < band.Length0 && t != s && 0 <= ncross[t] <= CAP ==> Row(t) == old(Row(t))
    {
      hide SortOf, Sorted;
      RowRoom(s);
      SortSorts(Row(s));
      SortCrossings(s * CAP, ncross[s]);
    }

    /** The rows of a walked polygon, one sort and sweep each. */
    method FillRows(ghost vs: seq<Vertex>, lo: int, hi: int, rule: Rule, ink: Ink)
      requires Valid() && y0 <= lo < hi <= y0 + lines && clipY0 <= lo && hi <= clipY1
      requires Walked(Edges(vs), lo, hi - lo, XLo(), XHi())
      modifies band, cross, ncross
      ensures forall p, x :: 0 <= p < band.Length0 && 0 <= x < band.Length1 ==>
                Settled(vs, lo, hi, p) ==>
                band[p, x] == if lo <= y0 + p < hi && Shows(x, y0 + p) && Inside(Edges(vs), rule, x, y0 + p)
                              then ink.On(old(band[p, x])) else old(band[p, x])
    {
      hide Edges, Kept, RowList, Winding, FitsRow;
      var y := lo;
      while y < hi
        invariant lo <= y <= hi
        invariant forall s :: y - lo <= s < hi - lo ==> 0 <= ncross[s] <= CAP && Row(s) == Kept(Edges(vs), lo + s, XLo(), XHi())
        invariant forall p, x :: 0 <= p < band.Length0 && 0 <= x < band.Length1 ==>
                    Settled(vs, lo, y, p) ==>
                    band[p, x] == if lo <= y0 + p < y && Shows(x, y0 + p) && Inside(Edges(vs), rule, x, y0 + p)
                                  then ink.On(old(band[p, x])) else old(band[p, x])
      {
        FillRow(vs, y - lo, y, rule, ink);
        y := y + 1;
      }
    }

    /** raster_fill_poly: in every row none of whose crossings is dropped, a pixel of band and clip
        changes, and changes once, exactly when it is inside the polygon. */
    method FillPoly(vs: seq<Vertex>, rule: Rule, ink: Ink)
      requires Valid()
      modifies band, cross, ncross
      ensures forall p, x :: 0 <= p < lines && 0 <= x < band.Length1 && FitsRow(Edges(vs), y0 + p, XLo(), XHi()) ==>
                band[p, x] == if Shows(x, y0 + p) && Inside(Edges(vs), rule, x, y0 + p)
                              then ink.On(old(band[p, x])) else old(band[p, x])
      ensures forall p, x :: lines <= p < band.Length0 && 0 <= x < band.Length1 ==> band[p, x] == old(band[p, x])
    {
      hide Edges, Kept, RowList, Winding, FitsRow;
      if ink.alpha == 0 { return; }
      if |vs| < 3 {
        forall k, x ensures Winding(Edges(vs), k, x) == 0 { TooFew(vs, k, x); }
        return;
      }
      var lo, hi := BandRows();
      if hi <= lo || clipX1 <= clipX0 { return; }
      ClearRows(hi - lo);
      WalkStream(vs, lo, hi - lo, XLo(), XHi());
      FillRows(vs, lo, hi, rule, ink);
    }
  }

  /** A row that keeps all its crossings: sorted, they cancel and wind like the edges; fewer than two
      fill nothing. */
  lemma {:induction false} RowFills(vs: seq<Vertex>, k: int, lo: int, hi: int)
    requires FitsRow(Edges(vs), k, lo, hi) && lo < hi
    ensures var l := Kept(Edges(vs), k, lo, hi);
            && Total(SortOf(l)) == 0
            && (forall c :: lo <= c < hi ==> WindOf(SortOf(l), c) == Winding(Edges(vs), k, c))
            && (|l| < 2 ==> forall c :: lo <= c < hi ==> Winding(Edges(vs), k, c) == 0)
  {
    var es := Edges(vs);
    var l := Kept(es, k, lo, hi);
    KeptAll(es, k, lo, hi);
    CrossingsCancel(vs, k);
    RowListWinds(es, k, lo, hi, lo);
    SortKeeps(l, lo);
    forall c | lo <= c < hi
      ensures WindOf(SortOf(l), c) == Winding(es, k, c) && (|l| < 2 ==> Winding(es, k, c) == 0)
    {
      RowListWinds(es, k, lo, hi, c);
      SortKeeps(l, c);
      if |l| < 2 { ShortCancels(l, c); }
    }
  }

  lemma ShortCancels(l: seq<int>, c: int)
    requires |l| < 2 && Total(l) == 0
    ensures WindOf(l, c) == 0
  {
    if |l| == 1 { OneNeverCancels(l); }
  }

  lemma OneNeverCancels(l: seq<int>)
    requires |l| == 1
    ensures Total(l) != 0
  {
    assert l[..0] == [];
  }

  lemma SweepStarts(l: seq<int>, rule: Rule)
    ensures Swept(l[..0], rule, false, 0) && Total(l[..0]) == 0
    ensures forall c :: !Covered(l[..0], rule, false, 0, c)
  {
    assert l[..0] == [];
  }

  lemma PutNothing()
    ensures forall l :: |l| <= CAP ==> PutEntry(l, []) == l
  {
    forall l: seq<int> ensures PutEntry(l, []) == l {
      assert l + [] == l;
    }
  }

  lemma NoDisc(cx: int, cy: int, r: int)
    ensures r <= 0 ==> forall i, k :: !InDisc(cx, cy, r, i, k)
  {
  }

  lemma SquareFits(r: int, d: int)
    requires -0x8000_0000 <= r < 0x8000_0000 && Sq(d) <= Sq(r)
    ensures 0 <= Sq(r) - Sq(d) < 0x1_0000_0000_0000_0000
  {
    SqNonNeg(d);
    SqMono(r, 0x8000_0000);
  }

  lemma Order(cx: int, ho: int, hin: int)
    requires hin >= 0
    ensures PxFirst(cx - hin) <= PxFirst(cx + hin + 1)
  {
  }

  lemma {:induction false} RingSplit(cx: int, cy: int, r: int, w: int, k: int, ho: int, hin: int, i: int)
    requires w > 0 && r - w / 2 > 0 && ho >= 0 && hin >= 0
    requires Sq(ho) <= Sq(r + w / 2) - Sq(Centre(k) - cy) < Sq(ho + 1)
    requires Sq(hin) <= Sq(r - w / 2) - Sq(Centre(k) - cy) < Sq(hin + 1)
    ensures InRing(cx, cy, r, w, i, k) <==>
              PxFirst(cx - ho) <= i < PxFirst(cx - hin) || PxFirst(cx + hin + 1) <= i < PxFirst(cx + ho + 1)
  {
    hide Sq, InDisc;
    DiscRow(cx, cy, r + w / 2, k, ho, i);
    DiscRow(cx, cy, r - w / 2, k, hin, i);
    Nested(r, w, Sq(Centre(k) - cy), ho, hin);
    PxFirstIsFirst(cx - hin, i);
    PxFirstIsFirst(cx + hin + 1, i);
  }

  lemma Nested(r: int, w: int, d2: int, ho: int, hin: int)
    requires w > 0 && r - w / 2 > 0 && ho >= 0 && hin >= 0
    requires Sq(ho) <= Sq(r + w / 2) - d2 < Sq(ho + 1)
    requires Sq(hin) <= Sq(r - w / 2) - d2 < Sq(hin + 1)
    ensures hin <= ho
  {
    hide Sq;
    SqMono(r - w / 2, r + w / 2);
    if hin > ho { SqMono(ho + 1, hin); }
  }
}
