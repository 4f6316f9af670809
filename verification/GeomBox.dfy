/** The box a finished record carries: the renderer leaves out a record whose box the band does not
    meet, so the box must contain every pixel that filling the record's stored words can paint. */
module GeomBox {
  import opened Prelude
  import opened RasterMath
  import opened GeomWords
  import P = Polygon
  import PE = PolygonExact
  import R = Raster
  import W = GeomWriter

  function S32(w: Word): Int32 { if w >= 0x8000_0000 then w - 0x1_0000_0000 else w }

  /** Stored words as the rasteriser reads them. */
  function StreamOf(data: seq<Word>): seq<P.Vertex> {
    seq(|data|, i requires 0 <= i < |data| => P.Vertex(PairX(data[i]), PairY(data[i])))
  }

  // ---- a crossing lies between the ends of its edge ----

  lemma {:induction false} Product(s: int, dx: int, h: int)
    requires 0 <= s <= h && 0 <= dx
    ensures 0 <= s * dx <= h * dx
  {
    PE.MulLe(dx, s, h);
  }

  /** The exact crossing, scaled by the edge's height. */
  lemma {:induction false} ExactBetween(e: P.Edge, k: int)
    requires P.Crosses(e, k)
    ensures var (d, h) := (P.Down(e), PE.Height(e));
            && (d.xa <= d.xb ==> d.xa * h <= PE.ExactAt(e, k) <= d.xb * h)
            && (d.xb <= d.xa ==> d.xb * h <= PE.ExactAt(e, k) <= d.xa * h)
  {
    PE.CrossesCentre(e, k);
    var d := P.Down(e);
    Between(d.xa, d.xb, Centre(k) - d.ya, PE.Height(e));
  }

  lemma {:induction false} Between(xa: int, xb: int, s: int, h: int)
    requires 0 <= s <= h
    ensures xa <= xb ==> xa * h <= xa * h + s * (xb - xa) <= xb * h
    ensures xb <= xa ==> xb * h <= xa * h + s * (xb - xa) <= xa * h
  {
    PE.Moved(xb, xa, h);
    PE.Moved(xa, xb, h);
    if xa <= xb { Product(s, xb - xa, h); } else { Product(s, xa - xb, h); PE.Opposite(s, xa - xb); }
    Swap(h, xb - xa);
    Swap(h, xa - xb);
  }

  lemma Swap(a: int, b: int)
    ensures a * b == b * a
  {
  }

  /** The crossing taken starts at the upper end and moves only towards the lower one. */
  lemma {:induction false} FixedBeyond(e: P.Edge, k: int)
    requires P.Crosses(e, k)
    ensures P.Down(e).xa <= P.Down(e).xb ==> 0x1_0000 * P.Down(e).xa <= PE.FixedAt(e, k)
    ensures P.Down(e).xb <= P.Down(e).xa ==> PE.FixedAt(e, k) <= 0x1_0000 * P.Down(e).xa
  {
    var d, n := P.Down(e), PE.RowsDown(e, k);
    var s := Centre(P.RowOf(d.ya)) - d.ya;
    PxFirstIsFirst(d.ya, P.RowOf(d.ya));
    hide TruncDiv;
    PE.SameSign(s, (d.xb - d.xa) * 0x1_0000);
    TruncSign(s * ((d.xb - d.xa) * 0x1_0000), PE.Height(e));
    TruncSign((d.xb - d.xa) * 0x1_0000 * 8, PE.Height(e));
    PE.SameSign(n, P.StepX(e));
  }

  lemma TruncSign(a: int, b: int)
    requires b > 0
    ensures (a >= 0 ==> TruncDiv(a, b) >= 0) && (a <= 0 ==> TruncDiv(a, b) <= 0)
  {
  }

  lemma {:induction false} CrossBetween(e: P.Edge, k: int, lo: int, hi: int)
    requires P.Crosses(e, k) && lo <= e.xa <= hi && lo <= e.xb <= hi
    ensures lo <= P.CrossX(e, k) <= hi
  {
    hide PE.FixedAt, PE.ExactAt, PE.RowsDown, PE.Height;
    PE.EndsApart(e);
    var d, h, f, x := P.Down(e), PE.Height(e), PE.FixedAt(e, k), PE.ExactAt(e, k);
    ExactBetween(e, k);
    FixedBeyond(e, k);
    PE.FixedNear(e, k);
    PE.Through(d.xa, h);
    PE.Through(d.xb, h);
    PE.Scaled(f, 0x1_0000 * d.xb, h);
    PE.Scaled(0x1_0000 * d.xb, f, h);
    PE.CrossXIs(e, k, hi);
    PE.CrossXIs(e, k, lo - 1);
  }

  // ---- a point outside the extents has winding number 0 ----

  /** Every edge lies in the box, limits included. */
  ghost predicate Bounded(es: seq<P.Edge>, b: Box) {
    forall e :: e in es ==> && b.x0 <= e.xa <= b.x1 && b.x0 <= e.xb <= b.x1
                            && b.y0 <= e.ya <= b.y1 && b.y0 <= e.yb <= b.y1
  }

  lemma {:induction false} OutsideNone(es: seq<P.Edge>, b: Box, k: int, x: int)
    requires Bounded(es, b) && !(b.y0 <= Centre(k) < b.y1 && b.x0 <= x)
    ensures P.Winding(es, k, x) == 0
  {
    hide P.CrossX, P.Crosses;
    if es != [] {
      var e := es[|es| - 1];
      assert e in es;
      OutsideNone(es[..|es| - 1], b, k, x);
      PE.CrossesCentre(e, k);
      if P.Crosses(e, k) { CrossBetween(e, k, b.x0, b.x1); }
    }
  }

  lemma {:induction false} RightAll(es: seq<P.Edge>, b: Box, k: int, x: int)
    requires Bounded(es, b) && b.x1 <= x
    ensures P.Winding(es, k, x) == P.Signed(es, k)
  {
    hide P.CrossX, P.Crosses;
    if es != [] {
      var e := es[|es| - 1];
      assert e in es;
      RightAll(es[..|es| - 1], b, k, x);
      PE.CrossesCentre(e, k);
      if P.Crosses(e, k) { CrossBetween(e, k, b.x0, b.x1); }
    }
  }

  /** All vertices that are not markers lie in the box. */
  ghost predicate Covers(b: Box, vs: seq<P.Vertex>) {
    forall v :: v in vs && v.x != P.BREAK ==> b.x0 <= v.x <= b.x1 && b.y0 <= v.y <= b.y1
  }

  lemma {:induction false} TraceBounded(vs: seq<P.Vertex>, b: Box)
    requires Covers(b, vs)
    ensures Bounded(P.Trace(vs).1, b)
    ensures var p := P.Trace(vs).0;
            p.nv > 0 ==> b.x0 <= p.sx <= b.x1 && b.x0 <= p.px <= b.x1 && b.y0 <= p.sy <= b.y1 && b.y0 <= p.py <= b.y1
  {
    if vs != [] {
      assert vs[|vs| - 1] in vs;
      TraceBounded(vs[..|vs| - 1], b);
    }
  }

  /** The centre of a pixel that is inside lies within the extents of the vertices. */
  lemma {:induction false} InsideBounded(vs: seq<P.Vertex>, b: Box, rule: P.Rule, i: int, k: int)
    requires Covers(b, vs) && P.Inside(P.Edges(vs), rule, i, k)
    ensures b.x0 <= Centre(i) < b.x1 && b.y0 <= Centre(k) < b.y1
  {
    hide Bounded, P.Winding, P.Signed;
    assert Bounded(P.Edges(vs), b) by { EdgesBounded(vs, b); }
    hide P.Edges;
    if !(b.y0 <= Centre(k) < b.y1 && b.x0 <= Centre(i)) {
      OutsideNone(P.Edges(vs), b, k, Centre(i));
    } else if b.x1 <= Centre(i) {
      RightAll(P.Edges(vs), b, k, Centre(i));
      P.CrossingsCancel(vs, k);
    }
  }

  lemma {:induction false} EdgesBounded(vs: seq<P.Vertex>, b: Box)
    requires Covers(b, vs)
    ensures Bounded(P.Edges(vs), b)
  {
    TraceBounded(vs, b);
  }

  // ---- polygons ----

  /** Clamped into the range of stored coordinates. */
  lemma {:induction false} WordsCovered(vs: seq<Vertex>)
    requires vs != []
    ensures Covers(Extents(vs), StreamOf(PolyWords(vs)))
  {
    forall v | v in StreamOf(PolyWords(vs)) && v.x != P.BREAK
      ensures Extents(vs).x0 <= v.x <= Extents(vs).x1 && Extents(vs).y0 <= v.y <= Extents(vs).y1
    {
      var j :| 0 <= j < |PolyWords(vs)| && v == P.Vertex(PairX(PolyWords(vs)[j]), PairY(PolyWords(vs)[j]));
      var u := WordIs(vs, PolyWords(vs)[j]);
      ExtentsTight(vs);
    }
  }

  /** Coordinates of up to 4095 pixels either way are stored as they are. */
  lemma StoredAsIs(v: Int32)
    requires -32760 <= v <= 32760
    ensures ClampPx8(v) == v
  {
  }

  /** A stored word is a marker or a clamped vertex. */
  lemma {:induction false} WordIs(vs: seq<Vertex>, w: Word) returns (u: Vertex)
    requires w in PolyWords(vs)
    ensures PairX(w) == BREAK || (u in vs && PairX(w) == ClampPx8(u.x8) && PairY(w) == ClampPx8(u.y8))
  {
    var n := |vs| - 1;
    u := vs[n];
    if w in PolyWords(vs[..n]) {
      u := WordIs(vs[..n], w);
    } else if w == Pair(ClampPx8(u.x8), ClampPx8(u.y8)) {
      PairRoundTrip(ClampPx8(u.x8), ClampPx8(u.y8));
    } else {
      PairRoundTrip(BREAK, 0);
    }
  }

  /** The box in whole pixels: the floor of the least coordinate and the ceiling of the greatest. */
  lemma {:induction false} PolyBoxTight(id: nat, vs: seq<Vertex>, v: Vertex)
    requires v in vs
    ensures var r := PolyItem(id, vs).rec;
            && 8 * r.bx0 <= ClampPx8(v.x8) <= 8 * r.bx1 && 8 * r.by0 <= ClampPx8(v.y8) <= 8 * r.by1
            && (exists u :: u in vs && ClampPx8(u.x8) < 8 * r.bx0 + 8) && (exists u :: u in vs && 8 * (r.bx1 - 1) < ClampPx8(u.x8))
            && (exists u :: u in vs && ClampPx8(u.y8) < 8 * r.by0 + 8) && (exists u :: u in vs && 8 * (r.by1 - 1) < ClampPx8(u.y8))
  {
    hide Extents, PolyWords;
    ExtentsTight(vs);
  }

  /** Pixel (i, k) lies in the record's box. */
  predicate InBox(r: Rec, i: int, k: int) { r.bx0 <= i < r.bx1 && r.by0 <= k < r.by1 }

  /** Every pixel inside a finished polygon lies in its box. */
  lemma {:induction false} PolyBoxed(id: nat, vs: seq<Vertex>, rule: P.Rule, i: int, k: int)
    requires P.Inside(P.Edges(StreamOf(PolyItem(id, vs).data)), rule, i, k)
    ensures InBox(PolyItem(id, vs).rec, i, k)
  {
    if vs != [] {
      WordsCovered(vs);
      hide P.Inside, P.Edges, Extents, PolyWords, Covers;
      InsideBounded(StreamOf(PolyWords(vs)), Extents(vs), rule, i, k);
    }
  }

  // ---- circles ----

  /** A limit in pixels, rounded outward, unless it leaves the range of the field. */
  predicate Limits(lo: int, hi: int, b0: Int16, b1: Int16) {
    && (-0x4_0000 <= lo <= 0x3_FFFF ==> 8 * b0 <= lo < 8 * b0 + 8)
    && (-0x4_0000 <= hi <= 0x3_FFF8 ==> 8 * (b1 - 1) < hi <= 8 * b1)
  }

  lemma {:induction false} CircleBoxTight(id: nat, cx: Int32, cy: Int32, r: Int32)
    requires r > -0x8000_0000
    ensures var (it, a) := (CircleItem(id, cx, cy, r), if r < 0 then -r else r);
            && Limits(cx - a, cx + a, it.rec.bx0, it.rec.bx1) && Limits(cy - a, cy + a, it.rec.by0, it.rec.by1)
            && S32(it.data[0]) == cx && S32(it.data[1]) == cy && S32(it.data[2]) == a
  {
  }

  /** A pixel of a screen is never at the end of the range of a box. */
  predicate OnScreen(i: int, k: int) { 0 <= i < 0x7FFF && 0 <= k < 0x7FFF }

  /** Every pixel of a stored circle's disc lies in its box. */
  lemma {:induction false} CircleBoxed(id: nat, cx: Int32, cy: Int32, r: Int32, i: int, k: int)
    requires r > -0x8000_0000 && OnScreen(i, k)
    requires var d := CircleItem(id, cx, cy, r).data; R.InDisc(S32(d[0]), S32(d[1]), S32(d[2]), i, k)
    ensures InBox(CircleItem(id, cx, cy, r).rec, i, k)
  {
    var a := if r < 0 then -r else r;
    DiscWithin(cx, cy, a, i, k);
  }

  lemma {:induction false} DiscWithin(cx: int, cy: int, a: int, i: int, k: int)
    requires R.InDisc(cx, cy, a, i, k)
    ensures cx - a <= Centre(i) <= cx + a && cy - a <= Centre(k) <= cy + a
  {
    Within(Centre(i) - cx, Centre(k) - cy, a);
    Within(Centre(k) - cy, Centre(i) - cx, a);
  }

  lemma {:induction false} Within(dx: int, dy: int, a: int)
    requires a > 0 && dx * dx + dy * dy <= a * a
    ensures -a <= dx <= a
  {
    assert dy * dy >= 0;
    if dx > a { SquareGrows(a, dx); }
    if dx < -a { SquareGrows(a, -dx); }
  }

  lemma SquareGrows(a: int, d: int)
    requires 0 <= a < d
    ensures a * a < d * d && -d * -d == d * d
  {
  }

  // ---- every record of a set ----

  /** Filling the record paints nothing outside its box. */
  ghost predicate Boxed(it: Item) {
    && (it.rec.kind == POLY ==>
          forall rule, i, k :: P.Inside(P.Edges(StreamOf(it.data)), rule, i, k) ==> InBox(it.rec, i, k))
    && (it.rec.kind == CIRCLE && |it.data| == 3 ==>
          forall i, k :: OnScreen(i, k) && R.InDisc(S32(it.data[0]), S32(it.data[1]), S32(it.data[2]), i, k) ==> InBox(it.rec, i, k))
  }

  lemma {:induction false} StepBoxed(a: W.Abs, op: W.Op, ok: bool)
    requires W.OpOk(op) && forall id :: id in a.defs ==> Boxed(a.defs[id])
    ensures forall id :: id in W.AbsStep(a, op, ok).defs ==> Boxed(W.AbsStep(a, op, ok).defs[id])
  {
    match op
    case AddCircle(id, cx, cy, r) => CircleAllBoxed(id, cx, cy, r);
    case AddGroup(id, members) =>
    case BeginPoly(id) =>
    case AddVertex(v) =>
    case EndPoly => if a.cur.Some? { PolyAllBoxed(a.cur.value.0, a.cur.value.1); }
  }

  lemma {:induction false} CircleAllBoxed(id: nat, cx: Int32, cy: Int32, r: Int32)
    requires r > -0x8000_0000
    ensures Boxed(CircleItem(id, cx, cy, r))
  {
    hide R.InDisc, InBox, ClampPx;
    var it := CircleItem(id, cx, cy, r);
    forall i, k | OnScreen(i, k) && R.InDisc(S32(it.data[0]), S32(it.data[1]), S32(it.data[2]), i, k) ensures InBox(it.rec, i, k) {
      CircleBoxed(id, cx, cy, r, i, k);
    }
  }

  lemma {:induction false} PolyAllBoxed(id: nat, vs: seq<Vertex>)
    ensures Boxed(PolyItem(id, vs))
  {
    hide P.Inside, P.Edges, InBox, PolyWords, StreamOf;
    var it := PolyItem(id, vs);
    forall rule, i, k | P.Inside(P.Edges(StreamOf(it.data)), rule, i, k) ensures InBox(it.rec, i, k) {
      PolyBoxed(id, vs, rule, i, k);
    }
  }

  /** Whatever calls built a set, no record in it paints outside its own box. */
  lemma {:induction false} WrittenBoxed(cap: nat, first: nat, ops: seq<W.Op>)
    requires 4 * (first + cap) < ABSENT && forall op :: op in ops ==> W.OpOk(op)
    ensures forall id :: id in W.Written(cap, first, ops).1.defs ==> Boxed(W.Written(cap, first, ops).1.defs[id])
  {
    hide Boxed, W.Call, W.AbsStep;
    if ops != [] {
      var (w, a) := W.Written(cap, first, ops[..|ops| - 1]);
      WrittenBoxed(cap, first, ops[..|ops| - 1]);
      assert ops[|ops| - 1] in ops;
      StepBoxed(a, ops[|ops| - 1], W.Call(w, ops[|ops| - 1]).1);
    }
  }
}
