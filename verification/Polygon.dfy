/** The polygon sweep of raster.c as functions on values: a vertex stream's edges, where they cross
    pixel rows, the winding number of a point, the crossing list of a row, and its insertion sort. */
module Polygon {
  import opened RasterMath

  const BREAK := -0x8000

  datatype Vertex = Vertex(x: int, y: int)
  datatype Edge = Edge(xa: int, ya: int, xb: int, yb: int)
  datatype Rule = NonZero | EvenOdd

  // ---- walk_stream: the edges of a vertex stream ----

  /** Start and current point of the contour being walked, and its vertex count. */
  datatype Pen = Pen(sx: int, sy: int, px: int, py: int, nv: nat)

  function Closing(p: Pen): seq<Edge> { if p.nv >= 2 then [Edge(p.px, p.py, p.sx, p.sy)] else [] }

  function Trace(vs: seq<Vertex>): (Pen, seq<Edge>) {
    if vs == [] then (Pen(0, 0, 0, 0, 0), [])
    else
      var (p, es) := Trace(vs[..|vs| - 1]);
      var v := vs[|vs| - 1];
      if v.x == BREAK then (p.(nv := 0), es + Closing(p))
      else if p.nv == 0 then (Pen(v.x, v.y, v.x, v.y, 1), es)
      else (p.(px := v.x, py := v.y, nv := p.nv + 1), es + [Edge(p.px, p.py, v.x, v.y)])
  }

  /** All edges, every contour closed. */
  function Edges(vs: seq<Vertex>): seq<Edge> {
    var (p, es) := Trace(vs);
    es + Closing(p)
  }

  // ---- where an edge crosses a row ----

  /** The first row whose centre is at or below y. */
  function RowOf(y: int): int { PxFirst(y) }

  function Down(e: Edge): Edge { if e.ya > e.yb then Edge(e.xb, e.yb, e.xa, e.ya) else e }

  /** Top-inclusive, bottom-exclusive: a vertex shared by two edges is counted once. */
  predicate Crosses(e: Edge, k: int) {
    e.ya != e.yb && RowOf(Down(e).ya) <= k < RowOf(Down(e).yb)
  }

  function Dir(e: Edge): int { if e.ya > e.yb then -1 else 1 }

  /** The crossing's x, rounded up, from 16.16 fixed point: a function of the edge and the row only. */
  function CrossX(e: Edge, k: int): int
    requires e.ya != e.yb
  {
    Ceil16(StartX(e) + (k - RowOf(Down(e).ya)) * StepX(e))
  }

  /** x at the edge's own first row, and its change from one row to the next, in 16.16. */
  function StartX(e: Edge): int
    requires e.ya != e.yb
  {
    var d := Down(e);
    d.xa * 0x1_0000 + TruncDiv((RowOf(d.ya) * 8 + 4 - d.ya) * ((d.xb - d.xa) * 0x1_0000), d.yb - d.ya)
  }

  function StepX(e: Edge): int
    requires e.ya != e.yb
  {
    var d := Down(e);
    TruncDiv((d.xb - d.xa) * 0x1_0000 * 8, d.yb - d.ya)
  }

  // ---- the definition the sweep is measured against ----

  /** Signed crossings of row k at or left of x. */
  function Winding(es: seq<Edge>, k: int, x: int): int {
    if es == [] then 0
    else
      var e := es[|es| - 1];
      Winding(es[..|es| - 1], k, x) + (if Crosses(e, k) && CrossX(e, k) <= x then Dir(e) else 0)
  }

  predicate Fills(rule: Rule, wind: int) { if rule.EvenOdd? then wind % 2 != 0 else wind != 0 }

  /** Pixel (i, k) is inside the polygon: the fill rule at its centre. */
  predicate Inside(es: seq<Edge>, rule: Rule, i: int, k: int) { Fills(rule, Winding(es, k, Centre(i))) }

  // ---- crossings of a row cancel ----

  function Signed(es: seq<Edge>, k: int): int {
    if es == [] then 0
    else
      var e := es[|es| - 1];
      Signed(es[..|es| - 1], k) + (if Crosses(e, k) then Dir(e) else 0)
  }

  function Above(y: int, k: int): int { if RowOf(y) <= k then 1 else 0 }

  lemma SignedEdge(e: Edge, k: int)
    ensures (if Crosses(e, k) then Dir(e) else 0) == Above(e.ya, k) - Above(e.yb, k)
  {
  }

  lemma {:induction false} SignedAppend(es: seq<Edge>, e: Edge, k: int)
    ensures Signed(es + [e], k) == Signed(es, k) + Above(e.ya, k) - Above(e.yb, k)
  {
    assert (es + [e])[..|es|] == es;
    SignedEdge(e, k);
  }

  lemma {:induction false} TraceSigned(vs: seq<Vertex>, k: int)
    ensures var (p, es) := Trace(vs);
            Signed(es, k) == if p.nv == 0 then 0 else Above(p.sy, k) - Above(p.py, k)
    ensures Trace(vs).0.nv == 1 ==> Trace(vs).0.sy == Trace(vs).0.py
  {
    if vs != [] {
      var (p, es) := Trace(vs[..|vs| - 1]);
      var v := vs[|vs| - 1];
      TraceSigned(vs[..|vs| - 1], k);
      if v.x == BREAK {
        if p.nv >= 2 { SignedAppend(es, Edge(p.px, p.py, p.sx, p.sy), k); } else { assert es + Closing(p) == es; }
      } else if p.nv > 0 {
        SignedAppend(es, Edge(p.px, p.py, v.x, v.y), k);
      }
    }
  }

  /** Whatever the stream, the signed crossings of a row sum to zero, so every span opened closes. */
  lemma {:induction false} CrossingsCancel(vs: seq<Vertex>, k: int)
    ensures Signed(Edges(vs), k) == 0
  {
    TraceSigned(vs, k);
    var (p, es) := Trace(vs);
    if p.nv >= 2 { SignedAppend(es, Edge(p.px, p.py, p.sx, p.sy), k); } else { assert es + Closing(p) == es; }
  }

  // ---- the packed crossing list of a row ----

  function Pack(x: int, dir: int): int { 2 * x + (if dir == 1 then 1 else 0) }

  /** cross_x and the direction bit. */
  function EntryX(c: int): int { (c - c % 2) / 2 }

  function EntryDir(c: int): int { if c % 2 == 1 then 1 else -1 }

  function Entry(e: Edge, k: int, lo: int, hi: int): seq<int> {
    if Crosses(e, k) then [Pack(Clamp(CrossX(e, k), lo, hi), Dir(e))] else []
  }

  /** The crossings of row k in edge order, x clamped to [lo, hi]. */
  function RowList(es: seq<Edge>, k: int, lo: int, hi: int): seq<int> {
    if es == [] then []
    else RowList(es[..|es| - 1], k, lo, hi) + Entry(es[|es| - 1], k, lo, hi)
  }

  /** Signed entries at or left of x. */
  function WindOf(l: seq<int>, x: int): int {
    if l == [] then 0
    else WindOf(l[..|l| - 1], x) + Weight(l[|l| - 1], x)
  }

  function Weight(c: int, x: int): int { if EntryX(c) <= x then EntryDir(c) else 0 }

  function Total(l: seq<int>): int {
    if l == [] then 0 else Total(l[..|l| - 1]) + EntryDir(l[|l| - 1])
  }

  lemma PackUnpack(x: int, dir: int)
    requires dir == 1 || dir == -1
    ensures EntryX(Pack(x, dir)) == x && EntryDir(Pack(x, dir)) == dir
  {
  }

  lemma {:induction false} RowListWinds(es: seq<Edge>, k: int, lo: int, hi: int, x: int)
    requires lo <= x < hi
    ensures WindOf(RowList(es, k, lo, hi), x) == Winding(es, k, x)
    ensures Total(RowList(es, k, lo, hi)) == Signed(es, k)
  {
    if es != [] {
      var n := |es| - 1;
      var l := RowList(es[..n], k, lo, hi);
      RowListWinds(es[..n], k, lo, hi, x);
      if Crosses(es[n], k) {
        var c := Clamp(CrossX(es[n], k), lo, hi);
        PackUnpack(c, Dir(es[n]));
        assert (l + [Pack(c, Dir(es[n]))])[..|l|] == l;
      } else {
        assert l + Entry(es[n], k, lo, hi) == l;
      }
    }
  }

  // ---- sort_crossings ----

  predicate Sorted(l: seq<int>) { forall i, j :: 0 <= i < j < |l| ==> l[i] <= l[j] }

  /** v goes after every entry that is not greater. */
  function Insert(l: seq<int>, v: int): (r: seq<int>)
    ensures |r| == |l| + 1
  {
    if l == [] || l[|l| - 1] <= v then l + [v]
    else Insert(l[..|l| - 1], v) + [l[|l| - 1]]
  }

  function SortOf(l: seq<int>): (r: seq<int>)
    ensures |r| == |l|
  {
    if l == [] then [] else Insert(SortOf(l[..|l| - 1]), l[|l| - 1])
  }

  lemma {:induction false} InsertKeeps(l: seq<int>, v: int, x: int)
    ensures WindOf(Insert(l, v), x) == WindOf(l, x) + Weight(v, x)
    ensures Total(Insert(l, v)) == Total(l) + EntryDir(v)
  {
    if l == [] || l[|l| - 1] <= v {
      assert (l + [v])[..|l|] == l;
    } else {
      var n := |l| - 1;
      InsertKeeps(l[..n], v, x);
      var r := Insert(l[..n], v);
      assert (r + [l[n]])[..|r|] == r;
    }
  }

  /** Sorting changes no winding number. */
  lemma {:induction false} SortKeeps(l: seq<int>, x: int)
    ensures WindOf(SortOf(l), x) == WindOf(l, x)
    ensures Total(SortOf(l)) == Total(l)
  {
    if l != [] {
      SortKeeps(l[..|l| - 1], x);
      InsertKeeps(SortOf(l[..|l| - 1]), l[|l| - 1], x);
    }
  }

  lemma {:induction false} InsertSorted(l: seq<int>, v: int)
    requires Sorted(l)
    ensures Sorted(Insert(l, v))
    ensures forall i :: 0 <= i < |l| + 1 ==> Insert(l, v)[i] <= v || (l != [] && Insert(l, v)[i] <= l[|l| - 1])
  {
    if !(l == [] || l[|l| - 1] <= v) { InsertSorted(l[..|l| - 1], v); }
  }

  lemma {:induction false} InsertAdds(l: seq<int>, v: int)
    ensures multiset(Insert(l, v)) == multiset(l) + multiset{v}
  {
    if !(l == [] || l[|l| - 1] <= v) {
      var n := |l| - 1;
      InsertAdds(l[..n], v);
      assert l == l[..n] + [l[n]];
    }
  }

  /** The result is ordered, and a permutation. */
  lemma {:induction false} SortSorts(l: seq<int>)
    ensures Sorted(SortOf(l)) && multiset(SortOf(l)) == multiset(l)
  {
    if l != [] {
      var n := |l| - 1;
      SortSorts(l[..n]);
      InsertSorted(SortOf(l[..n]), l[n]);
      InsertAdds(SortOf(l[..n]), l[n]);
      assert l == l[..n] + [l[n]];
    }
  }

  /** Where the insertion ends up, once the entries greater than v are known. */
  lemma {:induction false} InsertAt(l: seq<int>, v: int, j: nat)
    requires j <= |l| && (forall k :: j <= k < |l| ==> l[k] > v)
    requires j > 0 ==> l[j - 1] <= v
    ensures Insert(l, v) == l[..j] + [v] + l[j..]
  {
    if j < |l| {
      var n := |l| - 1;
      InsertAt(l[..n], v, j);
      assert l[..n][..j] == l[..j];
      assert l[..n][j..] + [l[n]] == l[j..];
    } else {
      assert l[..j] == l && l[j..] == [];
    }
  }

  // ---- the sweep over a sorted row ----

  /** The centre c has been painted after entries l, of which the span opened at xs, if any, is still
      open. */
  predicate Covered(l: seq<int>, rule: Rule, inside: bool, xs: int, c: int) {
    (inside ==> c < xs) && Fills(rule, WindOf(l, c))
  }

  /** The sweep's state after entries l: inside exactly when their total fills, and everything from
      the open span's start on fills. */
  ghost predicate Swept(l: seq<int>, rule: Rule, inside: bool, xs: int) {
    && inside == Fills(rule, Total(l))
    && (inside ==> l != [] && xs <= EntryX(l[|l| - 1]))
    && (inside ==> forall c :: c >= xs ==> Fills(rule, WindOf(l, c)))
  }

  lemma {:induction false} WindBeyond(l: seq<int>, x: int)
    requires forall i :: 0 <= i < |l| ==> EntryX(l[i]) <= x
    ensures WindOf(l, x) == Total(l)
  {
    if l != [] { WindBeyond(l[..|l| - 1], x); }
  }

  lemma WindStep(l: seq<int>, i: nat, x: int)
    requires i < |l|
    ensures WindOf(l[..i + 1], x) == WindOf(l[..i], x) + Weight(l[i], x)
    ensures Total(l[..i + 1]) == Total(l[..i]) + EntryDir(l[i])
  {
    assert l[..i + 1][..i] == l[..i];
  }

  lemma EntryMono(a: int, b: int)
    requires a <= b
    ensures EntryX(a) <= EntryX(b)
  {
  }

  lemma {:induction false} PrefixBelow(l: seq<int>, i: nat, x: int)
    requires Sorted(l) && i < |l| && EntryX(l[i]) <= x
    ensures WindOf(l[..i], x) == Total(l[..i])
  {
    forall j | 0 <= j < i
      ensures EntryX(l[..i][j]) <= x
    {
      EntryMono(l[j], l[i]);
    }
    WindBeyond(l[..i], x);
  }

  /** One entry of the sweep: a centre is painted by the span that closes here exactly when it was not
      painted before and now should be. */
  lemma {:induction false} SweepStep(l: seq<int>, i: nat, rule: Rule, inside: bool, xs: int)
    requires Sorted(l) && i < |l| && Swept(l[..i], rule, inside, xs)
    ensures var x, now := EntryX(l[i]), Fills(rule, Total(l[..i + 1]));
            var xs' := if now && !inside then x else xs;
            && Swept(l[..i + 1], rule, now, xs')
            && forall c :: Covered(l[..i + 1], rule, now, xs', c)
                           <==> Covered(l[..i], rule, inside, xs, c) || (inside && !now && xs <= c && c < x)
  {
    var x, now := EntryX(l[i]), Fills(rule, Total(l[..i + 1]));
    var xs' := if now && !inside then x else xs;
    var l0, l1 := l[..i], l[..i + 1];
    if inside { EntryMono(l[i - 1], l[i]); }
    if now {
      forall c | c >= xs'
        ensures Fills(rule, WindOf(l1, c))
      {
        SweepAt(l, i, c);
      }
    }
    forall c
      ensures Covered(l1, rule, now, xs', c) <==> Covered(l0, rule, inside, xs, c) || (inside && !now && xs <= c && c < x)
    {
      SweepAt(l, i, c);
    }
  }

  lemma {:induction false} SweepAt(l: seq<int>, i: nat, c: int)
    requires Sorted(l) && i < |l|
    ensures c < EntryX(l[i]) ==> WindOf(l[..i + 1], c) == WindOf(l[..i], c)
    ensures c >= EntryX(l[i]) ==> WindOf(l[..i], c) == Total(l[..i]) && WindOf(l[..i + 1], c) == Total(l[..i + 1])
  {
    WindStep(l, i, c);
    if c >= EntryX(l[i]) { PrefixBelow(l, i, c); }
  }

  /** At the end of a row whose crossings cancel, no span is open and every centre is settled. */
  lemma SweepEnds(l: seq<int>, rule: Rule, inside: bool, xs: int)
    requires Swept(l, rule, inside, xs) && Total(l) == 0
    ensures !inside && forall c :: Covered(l, rule, inside, xs, c) <==> Fills(rule, WindOf(l, c))
  {
  }

  // ---- rows with more crossings than the buffer holds ----

  const CAP := 128

  function PutEntry(l: seq<int>, en: seq<int>): seq<int> { if |l| + |en| <= CAP then l + en else l }

  /** The crossings a row keeps. */
  function Kept(es: seq<Edge>, k: int, lo: int, hi: int): (r: seq<int>)
    ensures |r| <= CAP
  {
    if es == [] then []
    else PutEntry(Kept(es[..|es| - 1], k, lo, hi), Entry(es[|es| - 1], k, lo, hi))
  }

  /** No crossing of row k is dropped. */
  predicate FitsRow(es: seq<Edge>, k: int, lo: int, hi: int) { |RowList(es, k, lo, hi)| <= CAP }

  lemma {:induction false} KeptAll(es: seq<Edge>, k: int, lo: int, hi: int)
    requires FitsRow(es, k, lo, hi)
    ensures Kept(es, k, lo, hi) == RowList(es, k, lo, hi)
  {
    if es != [] { KeptAll(es[..|es| - 1], k, lo, hi); }
  }

  lemma {:induction false} KeptAppend(es: seq<Edge>, e: Edge, k: int, lo: int, hi: int)
    ensures Kept(es + [e], k, lo, hi) == PutEntry(Kept(es, k, lo, hi), Entry(e, k, lo, hi))
  {
    assert (es + [e])[..|es|] == es;
  }

  /** Fewer than three pairs enclose nothing. */
  lemma {:induction false} TooFew(vs: seq<Vertex>, k: int, x: int)
    requires |vs| < 3
    ensures Winding(Edges(vs), k, x) == 0
  {
    hide Crosses, CrossX;
    var (p, es) := Trace(vs);
    TraceShort(vs);
    if p.nv == 2 {
      var a, b := Edge(p.sx, p.sy, p.px, p.py), Edge(p.px, p.py, p.sx, p.sy);
      WindingAppend([], a, k, x);
      WindingAppend([a], b, k, x);
      ThereAndBack(a, b, k, x);
      assert [] + [a] == [a] && Edges(vs) == [a] + [b];
    }
  }

  function Turn(e: Edge, k: int, x: int): int { if Crosses(e, k) && CrossX(e, k) <= x then Dir(e) else 0 }

  lemma {:induction false} WindingAppend(es: seq<Edge>, e: Edge, k: int, x: int)
    ensures Winding(es + [e], k, x) == Winding(es, k, x) + Turn(e, k, x)
  {
    assert (es + [e])[..|es|] == es;
  }

  lemma ThereAndBack(a: Edge, b: Edge, k: int, x: int)
    requires b == Edge(a.xb, a.yb, a.xa, a.ya)
    ensures Turn(a, k, x) + Turn(b, k, x) == 0
  {
    if a.ya != a.yb { assert Down(a) == Down(b); }
  }

  lemma TraceShort(vs: seq<Vertex>)
    requires |vs| < 3
    ensures var (p, es) := Trace(vs);
            if p.nv == 2 then es == [Edge(p.sx, p.sy, p.px, p.py)] else p.nv < 2 && es == []
  {
    if |vs| == 2 {
      assert vs[..1][..0] == [];
      assert Trace(vs[..1][..0]) == (Pen(0, 0, 0, 0, 0), []);
    } else if |vs| == 1 {
      assert vs[..0] == [];
    }
  }
}
