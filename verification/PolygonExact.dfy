/** How far the sweep's fixed-point crossings are from the polygon's own edges: a crossing never passes
    the exact one and falls short of it by less than one unit of 2^-16 for each row, so the winding
    number is the polygon's own at every point no edge passes that closely. */
module PolygonExact {
  import opened RasterMath
  import opened Polygon

  // ---- how far the fixed point is from the line ----

  /** Height of the edge, and its crossing of the row's centre line, exactly, as a fraction of it. */
  function Height(e: Edge): (h: int)
    ensures e.ya != e.yb ==> h > 0
  {
    Down(e).yb - Down(e).ya
  }

  function ExactAt(e: Edge, k: int): int {
    var d := Down(e);
    d.xa * Height(e) + (Centre(k) - d.ya) * (d.xb - d.xa)
  }

  function FixedAt(e: Edge, k: int): int
    requires e.ya != e.yb
  {
    StartX(e) + RowsDown(e, k) * StepX(e)
  }

  function RowsDown(e: Edge, k: int): int { k - RowOf(Down(e).ya) }

  lemma TruncNear(a: int, b: int)
    requires b > 0
    ensures if a >= 0 then 0 <= a - TruncDiv(a, b) * b < b else 0 <= TruncDiv(a, b) * b - a < b
    ensures a == 0 ==> TruncDiv(a, b) == 0
  {
  }

  /** n steps, each short by at least nothing and less than h. */
  lemma {:induction false} Steps(n: nat, short: int, h: int)
    requires 0 <= short < h
    ensures 0 <= n * short <= n * h
  {
    MulLe(n, short, h);
  }

  lemma MulLe(n: nat, a: int, b: int)
    requires 0 <= a <= b
    ensures 0 <= n * a <= n * b
  {
  }

  lemma {:induction false} SameSign(s: int, dx: int)
    requires s >= 0
    ensures (dx >= 0 ==> s * dx >= 0) && (dx <= 0 ==> s * dx <= 0)
  {
  }

  lemma {:induction false} Spread(x: int, h: int, t1: int, n: int, t2: int, s: int, dx: int)
    ensures (x * 0x1_0000 + t1 + n * t2) * h - 0x1_0000 * (x * h + (s + 8 * n) * dx)
            == (t1 * h - s * (dx * 0x1_0000)) + n * (t2 * h - dx * 0x1_0000 * 8)
  {
    assert n * t2 * h == n * (t2 * h);
    assert (s + 8 * n) * dx == s * dx + 8 * (n * dx);
    assert s * (dx * 0x1_0000) == 0x1_0000 * (s * dx);
    assert n * (t2 * h - dx * 0x1_0000 * 8) == n * (t2 * h) - 0x8_0000 * (n * dx);
  }

  /** What the first division and each step's division drop, as multiples of the height. */
  function FirstOff(e: Edge): int
    requires e.ya != e.yb
  {
    var d := Down(e);
    var a := (Centre(RowOf(d.ya)) - d.ya) * ((d.xb - d.xa) * 0x1_0000);
    TruncDiv(a, Height(e)) * Height(e) - a
  }

  function StepOff(e: Edge): int
    requires e.ya != e.yb
  {
    var a := (Down(e).xb - Down(e).xa) * 0x1_0000 * 8;
    TruncDiv(a, Height(e)) * Height(e) - a
  }

  lemma {:induction false} OffIs(e: Edge, k: int)
    requires e.ya != e.yb
    ensures FixedAt(e, k) * Height(e) - 0x1_0000 * ExactAt(e, k) == FirstOff(e) + RowsDown(e, k) * StepOff(e)
  {
    hide TruncDiv, RowOf;
    var d, h, n := Down(e), Height(e), RowsDown(e, k);
    var s, dx := Centre(RowOf(d.ya)) - d.ya, d.xb - d.xa;
    Spread(d.xa, h, TruncDiv(s * (dx * 0x1_0000), h), n, TruncDiv(dx * 0x1_0000 * 8, h), s, dx);
    assert Centre(k) - d.ya == s + 8 * n;
  }

  lemma {:induction false} OffsNear(e: Edge)
    requires e.ya != e.yb
    ensures Down(e).xb >= Down(e).xa ==> 0 <= -FirstOff(e) < Height(e) && 0 <= -StepOff(e) < Height(e)
    ensures Down(e).xb <= Down(e).xa ==> 0 <= FirstOff(e) < Height(e) && 0 <= StepOff(e) < Height(e)
  {
    hide TruncDiv;
    var d, h := Down(e), Height(e);
    var s, dx := Centre(RowOf(d.ya)) - d.ya, d.xb - d.xa;
    PxFirstIsFirst(d.ya, RowOf(d.ya));
    SameSign(s, dx * 0x1_0000);
    TruncNear(s * (dx * 0x1_0000), h);
    TruncNear(dx * 0x1_0000 * 8, h);
  }

  /** Both divisions round towards the upper end of the edge, so the crossing taken lies between the
      upper end and the exact one, less than one unit of 2^-16 short for each row since. */
  lemma {:induction false} FixedNear(e: Edge, k: int)
    requires Crosses(e, k)
    ensures var (d, off, rows) := (Down(e), FixedAt(e, k) * Height(e) - 0x1_0000 * ExactAt(e, k), RowsDown(e, k) + 1);
            && (d.xb >= d.xa ==> 0 <= -off < rows * Height(e))
            && (d.xb <= d.xa ==> 0 <= off < rows * Height(e))
  {
    assert e.ya != e.yb && RowsDown(e, k) >= 0;
    hide FixedAt, ExactAt, FirstOff, StepOff, Down, RowOf, Height, RowsDown, Crosses;
    var h, n, a := Height(e), RowsDown(e, k), StepOff(e);
    OffIs(e, k);
    OffsNear(e);
    if Down(e).xb >= Down(e).xa { Steps(n, -a, h); }
    if Down(e).xb <= Down(e).xa { Steps(n, a, h); }
    Opposite(n, a);
    RowsOf(n, h);
  }

  lemma Opposite(n: int, a: int)
    ensures n * -a == -(n * a)
  {
  }

  lemma RowsOf(n: int, h: int)
    ensures (n + 1) * h == n * h + h
  {
  }

  /** The exact crossing is at or left of x. */
  predicate ExactlyLeft(e: Edge, k: int, x: int) { ExactAt(e, k) <= x * Height(e) }

  /** The edge passes the point by no less than one unit of 2^-16 for each row below its upper end, or
      is vertical. */
  predicate Clear(e: Edge, k: int, x: int) {
    var (gap, rows) := (0x1_0000 * (ExactAt(e, k) - x * Height(e)), RowsDown(e, k) + 1);
    gap >= rows * Height(e) || -gap >= rows * Height(e) || e.xa == e.xb
  }

  /** A point the edge is clear of is on the side of it that the exact line says. */
  lemma {:induction false} CrossingSide(e: Edge, k: int, x: int)
    requires Crosses(e, k) && Clear(e, k, x)
    ensures CrossX(e, k) <= x <==> ExactlyLeft(e, k, x)
  {
    hide FixedAt, ExactAt, Height, RowsDown, Down, Ceil16;
    var h, f, rows := Height(e), FixedAt(e, k), RowsDown(e, k) + 1;
    FixedNear(e, k);
    EndsApart(e);
    assert CrossX(e, k) <= x <==> f <= 0x1_0000 * x by { CrossXIs(e, k, x); }
    Scaled(f, 0x1_0000 * x, h);
    Through(x, h);
    Side(f * h, 0x1_0000 * ExactAt(e, k), 0x1_0000 * (x * h), rows * h);
  }

  lemma CrossXIs(e: Edge, k: int, x: int)
    requires e.ya != e.yb
    ensures CrossX(e, k) <= x <==> FixedAt(e, k) <= 0x1_0000 * x
  {
    hide StartX, StepX;
  }

  lemma EndsApart(e: Edge)
    ensures Down(e).xa == Down(e).xb <==> e.xa == e.xb
    ensures e.ya != e.yb ==> Height(e) > 0
  {
  }

  lemma Through(x: int, h: int)
    ensures 0x1_0000 * x * h == 0x1_0000 * (x * h)
  {
  }

  /** Two numbers that differ by less than r lie on the same side of one that is r away. */
  lemma Side(f: int, exact: int, p: int, r: int)
    requires 0 <= exact - f < r || 0 <= f - exact < r
    requires exact - p >= r || p - exact >= r || f == exact
    ensures f <= p <==> exact <= p
  {
  }

  lemma Scaled(a: int, b: int, h: int)
    requires h > 0
    ensures a <= b <==> a * h <= b * h
  {
    if a <= b { MulLe(h, 0, b - a); } else { MulLe(h, 1, a - b); }
    assert (b - a) * h == b * h - a * h && (a - b) * h == a * h - b * h;
  }

  // ---- the polygon itself ----

  /** The line at height y meets the edge: its upper end counts, its lower end does not. */
  predicate Spans(e: Edge, y: int) { e.ya <= y < e.yb || e.yb <= y < e.ya }

  /** The point of the edge at height y is at or left of x. */
  predicate LeftOf(e: Edge, y: int, x: int) {
    if e.ya < e.yb then (y - e.ya) * (e.xb - e.xa) <= (x - e.xa) * (e.yb - e.ya)
    else (y - e.ya) * (e.xb - e.xa) >= (x - e.xa) * (e.yb - e.ya)
  }

  /** The rows an edge crosses are those whose centres it spans. */
  lemma CrossesCentre(e: Edge, k: int)
    ensures Crosses(e, k) <==> Spans(e, Centre(k))
  {
    PxFirstIsFirst(e.ya, k);
    PxFirstIsFirst(e.yb, k);
  }

  lemma {:induction false} LeftOfIs(e: Edge, k: int, x: int)
    requires e.ya != e.yb
    ensures ExactlyLeft(e, k, x) <==> LeftOf(e, Centre(k), x)
  {
    if e.ya > e.yb {
      Turned(e.xa, e.ya, e.xb, e.yb, Centre(k), x);
    } else {
      Moved(x, e.xa, e.yb - e.ya);
    }
  }

  lemma Moved(x: int, xa: int, h: int)
    ensures (x - xa) * h == x * h - xa * h
  {
  }

  lemma {:induction false} Turned(xa: int, ya: int, xb: int, yb: int, y: int, x: int)
    ensures xb * (ya - yb) + (y - yb) * (xa - xb) - x * (ya - yb) == (x - xa) * (yb - ya) - (y - ya) * (xb - xa)
  {
    var h, dx, t := ya - yb, xa - xb, y - ya;
    assert (t + h) * dx == t * dx + h * dx;
    assert xb * h + h * dx == xa * h;
    assert t * (xb - xa) == -(t * dx);
    assert (x - xa) * (yb - ya) == -(x * h) + xa * h;
  }

  /** Signed edges at or left of the point. */
  function ExactWinding(es: seq<Edge>, y: int, x: int): int {
    if es == [] then 0
    else
      var e := es[|es| - 1];
      ExactWinding(es[..|es| - 1], y, x) + (if !(Spans(e, y) && LeftOf(e, y, x)) then 0 else if e.ya < e.yb then 1 else -1)
  }

  /** Away from the edges the winding number is that of the polygon itself. */
  lemma {:induction false} WindingExact(es: seq<Edge>, k: int, x: int)
    requires forall e :: e in es && Spans(e, Centre(k)) ==> Clear(e, k, x)
    ensures Winding(es, k, x) == ExactWinding(es, Centre(k), x)
  {
    hide Clear, CrossX, ExactlyLeft, Crosses, LeftOf, Spans;
    if es != [] {
      var e := es[|es| - 1];
      WindingExact(es[..|es| - 1], k, x);
      EdgeExact(e, k, x);
    }
  }

  lemma {:induction false} EdgeExact(e: Edge, k: int, x: int)
    requires Spans(e, Centre(k)) ==> Clear(e, k, x)
    ensures Crosses(e, k) ==> e.ya != e.yb
    ensures Crosses(e, k) && CrossX(e, k) <= x <==> Spans(e, Centre(k)) && LeftOf(e, Centre(k), x)
    ensures Dir(e) == if e.ya < e.yb || e.ya == e.yb then 1 else -1
    ensures Spans(e, Centre(k)) ==> e.ya != e.yb
  {
    hide Clear, CrossX, ExactlyLeft, LeftOf;
    CrossesCentre(e, k);
    if Crosses(e, k) {
      CrossingSide(e, k, x);
      LeftOfIs(e, k, x);
    }
  }

  // ---- contours ----

  /** The contours of a vertex stream: what lies between its markers. */
  function Contours(vs: seq<Vertex>): (cs: seq<seq<Vertex>>)
    ensures |cs| > 0
  {
    if vs == [] then [[]]
    else
      var cs, v := Contours(vs[..|vs| - 1]), vs[|vs| - 1];
      if v.x == BREAK then cs + [[]] else cs[|cs| - 1 := cs[|cs| - 1] + [v]]
  }

  function Joining(a: Vertex, b: Vertex): Edge { Edge(a.x, a.y, b.x, b.y) }

  /** A contour as a closed loop: each vertex to the next, the last to the first. */
  function Loop(c: seq<Vertex>): seq<Edge> {
    if |c| < 2 then [] else seq(|c|, i requires 0 <= i < |c| => Joining(c[i], c[if i + 1 == |c| then 0 else i + 1]))
  }

  function Loops(cs: seq<seq<Vertex>>): seq<Edge> {
    if cs == [] then [] else Loops(cs[..|cs| - 1]) + Loop(cs[|cs| - 1])
  }

  /** A contour not closed yet. */
  function Chain(c: seq<Vertex>): seq<Edge> {
    if |c| < 2 then [] else seq(|c| - 1, i requires 0 <= i < |c| - 1 => Joining(c[i], c[i + 1]))
  }

  lemma {:induction false} ChainCloses(c: seq<Vertex>)
    ensures c == [] ==> Chain(c) == []
    ensures Loop(c) == Chain(c) + if |c| >= 2 then [Joining(c[|c| - 1], c[0])] else []
  {
  }

  lemma {:induction false} ChainGrows(c: seq<Vertex>, v: Vertex)
    ensures Chain(c + [v]) == Chain(c) + if c != [] then [Joining(c[|c| - 1], v)] else []
  {
  }

  /** The pen is at the end of contour c, and c's first vertex is where it will return. */
  predicate PenAt(p: Pen, c: seq<Vertex>) {
    p.nv == |c| && (c != [] ==> p.sx == c[0].x && p.sy == c[0].y && p.px == c[|c| - 1].x && p.py == c[|c| - 1].y)
  }

  /** The edges of finished contours and of the one begun. */
  predicate Walked(es: seq<Edge>, p: Pen, cs: seq<seq<Vertex>>)
    requires |cs| > 0
  {
    es == Loops(cs[..|cs| - 1]) + Chain(cs[|cs| - 1]) && PenAt(p, cs[|cs| - 1])
  }

  lemma {:induction false} WalkedMark(es: seq<Edge>, p: Pen, cs: seq<seq<Vertex>>)
    requires |cs| > 0 && Walked(es, p, cs)
    ensures Walked(es + Closing(p), p.(nv := 0), cs + [[]])
  {
    hide Chain, Loop;
    var n := |cs| - 1;
    ChainCloses(cs[n]);
    ChainCloses([]);
    assert (cs + [[]])[..n + 1] == cs;
    assert Loops(cs) == Loops(cs[..n]) + Loop(cs[n]);
    Grouped(Loops(cs[..n]), Chain(cs[n]), Closing(p));
    assert Loops(cs) + [] == Loops(cs);
  }

  lemma {:induction false} WalkedOn(es: seq<Edge>, p: Pen, cs: seq<seq<Vertex>>, v: Vertex)
    requires |cs| > 0 && Walked(es, p, cs) && v.x != BREAK
    ensures var n := |cs| - 1;
            if p.nv == 0 then Walked(es, Pen(v.x, v.y, v.x, v.y, 1), cs[n := cs[n] + [v]])
            else Walked(es + [Edge(p.px, p.py, v.x, v.y)], p.(px := v.x, py := v.y, nv := p.nv + 1), cs[n := cs[n] + [v]])
  {
    hide Chain, Loops;
    var n := |cs| - 1;
    ChainGrows(cs[n], v);
    assert cs[n := cs[n] + [v]][..n] == cs[..n];
    if p.nv == 0 {
      assert Chain(cs[n]) + [] == Chain(cs[n]);
    } else {
      Grouped(Loops(cs[..n]), Chain(cs[n]), [Edge(p.px, p.py, v.x, v.y)]);
    }
  }

  lemma Grouped(a: seq<Edge>, b: seq<Edge>, c: seq<Edge>)
    ensures (a + b) + c == a + (b + c)
  {
  }

  lemma {:induction false} Traced(vs: seq<Vertex>)
    ensures Walked(Trace(vs).1, Trace(vs).0, Contours(vs))
  {
    if vs == [] {
      ChainCloses([]);
    } else {
      hide Walked;
      var m := |vs| - 1;
      var cs, es, p := Contours(vs[..m]), Trace(vs[..m]).1, Trace(vs[..m]).0;
      Traced(vs[..m]);
      if vs[m].x == BREAK { WalkedMark(es, p, cs); } else { WalkedOn(es, p, cs, vs[m]); }
    }
  }

  /** The edges walked are the closed loops of the stream's contours. */
  lemma {:induction false} EdgesAreLoops(vs: seq<Vertex>)
    ensures Edges(vs) == Loops(Contours(vs))
  {
    hide Chain, Loop;
    Traced(vs);
    var cs := Contours(vs);
    var n := |cs| - 1;
    ChainCloses(cs[n]);
    Grouped(Loops(cs[..n]), Chain(cs[n]), Closing(Trace(vs).0));
  }

  /** What is inside: an odd winding number, or any but zero. */
  predicate Within(cs: seq<seq<Vertex>>, rule: Rule, x: int, y: int) {
    var w := ExactWinding(Loops(cs), y, x);
    match rule
    case EvenOdd => w % 2 == 1
    case NonZero => w != 0
  }

  /** A pixel is inside exactly when its centre is inside the polygon, unless an edge passes the centre
      by less than one unit of 2^-16 for each row below the edge's upper end. */
  lemma {:induction false} InsideExact(vs: seq<Vertex>, rule: Rule, i: int, k: int)
    requires forall e :: e in Loops(Contours(vs)) && Spans(e, Centre(k)) ==> Clear(e, k, Centre(i))
    ensures Inside(Edges(vs), rule, i, k) <==> Within(Contours(vs), rule, Centre(i), Centre(k))
  {
    hide Clear, Loops, Spans, Edges;
    EdgesAreLoops(vs);
    WindingExact(Edges(vs), k, Centre(i));
  }
}
