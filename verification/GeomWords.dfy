/** Geometry records as they lie in memory. Every transfer of the store is a multiple of four bytes
    at a four-byte aligned offset, so memory is a sequence of little-endian 32-bit words. */
module GeomWords {
  import opened Prelude

  const MAX_DEFS := 1536
  const GROUP_MAX := 32
  const PX8_MAX := 4095 * 8

  type Int16 = i: int | -0x8000 <= i < 0x8000
  type Int32 = i: int | -0x8000_0000 <= i < 0x8000_0000

  const ABSENT: Word := 0xFFFF_FFFF
  const BREAK: Int16 := -0x8000

  const POLY := 1
  const CIRCLE := 2
  const GROUP := 3

  function U16(i: Int16): (w: int)
    ensures 0 <= w < 0x1_0000
  {
    if i < 0 then i + 0x1_0000 else i
  }

  function S16(w: int): (i: Int16)
    requires 0 <= w < 0x1_0000
  {
    if w >= 0x8000 then w - 0x1_0000 else w
  }

  function U32(i: Int32): Word { if i < 0 then i + 0x1_0000_0000 else i }

  /** Two int16 side by side, the first in the low half. */
  function Pair(x: Int16, y: Int16): Word { U16(x) + 0x1_0000 * U16(y) }

  function PairX(w: Word): Int16 { S16(w % 0x1_0000) }

  function PairY(w: Word): Int16 { S16(w / 0x1_0000) }

  lemma PairRoundTrip(x: Int16, y: Int16)
    ensures PairX(Pair(x, y)) == x && PairY(Pair(x, y)) == y
  {
  }

  /** geom_rec_t: the trailer that follows a record's data. */
  datatype Rec = Rec(id: nat, kind: nat, flags: nat, bx0: Int16, by0: Int16, bx1: Int16, by1: Int16, count: nat)

  predicate RecOk(r: Rec) {
    r.id < 0x1_0000 && r.kind < 0x100 && r.flags < 0x100 && r.count < 0x1_0000_0000
  }

  const TRAILER := 4

  function Trailer(r: Rec): (t: seq<Word>)
    requires RecOk(r)
    ensures |t| == TRAILER
  {
    [r.id + 0x1_0000 * r.kind + 0x100_0000 * r.flags, Pair(r.bx0, r.by0), Pair(r.bx1, r.by1), r.count]
  }

  function ReadTrailer(t: seq<Word>): (r: Rec)
    requires |t| == TRAILER
    ensures RecOk(r)
  {
    Rec(t[0] % 0x1_0000, t[0] / 0x1_0000 % 0x100, t[0] / 0x100_0000,
        PairX(t[1]), PairY(t[1]), PairX(t[2]), PairY(t[2]), t[3])
  }

  lemma TrailerRoundTrip(r: Rec)
    requires RecOk(r)
    ensures ReadTrailer(Trailer(r)) == r
  {
    PairRoundTrip(r.bx0, r.by0);
    PairRoundTrip(r.bx1, r.by1);
    Fields(r.id, r.kind, r.flags);
  }

  lemma Fields(a: nat, b: nat, c: nat)
    requires a < 0x1_0000 && b < 0x100 && c < 0x100
    ensures var w := a + 0x1_0000 * b + 0x100_0000 * c;
            w % 0x1_0000 == a && w / 0x1_0000 % 0x100 == b && w / 0x100_0000 == c
  {
    var w := a + 0x1_0000 * b + 0x100_0000 * c;
    assert w == a + 0x1_0000 * (b + 0x100 * c);
    assert w / 0x1_0000 == b + 0x100 * c;
  }

  /** A record: its trailer and the data words before it. */
  datatype Item = Item(rec: Rec, data: seq<Word>)

  /** What a reader may expect of any record it is handed. */
  predicate ItemOk(i: Item) {
    && RecOk(i.rec) && i.rec.count == |i.data|
    && i.rec.id < MAX_DEFS
    && (i.rec.kind == POLY || (i.rec.kind == CIRCLE && |i.data| == 3) || (i.rec.kind == GROUP && |i.data| <= GROUP_MAX))
  }

  // ---- vertex streams ----

  datatype Vertex = Vertex(x8: Int32, y8: Int32, start: bool)

  function ClampPx8(v: Int32): (c: Int16)
    ensures -PX8_MAX <= c <= PX8_MAX && c != BREAK
    ensures -PX8_MAX <= v <= PX8_MAX ==> c == v
  {
    if v > PX8_MAX then PX8_MAX else if v < -PX8_MAX then -PX8_MAX else v
  }

  function ClampPx(v: int): Int16 { if v > 0x7FFF then 0x7FFF else if v < -0x8000 then -0x8000 else v }

  /** The stored form of a polygon: every contour is preceded by a break marker, the first one
      whether or not its vertex says so. */
  function PolyWords(vs: seq<Vertex>): seq<Word> {
    if vs == [] then []
    else
      var v := vs[|vs| - 1];
      PolyWords(vs[..|vs| - 1])
      + (if v.start || |vs| == 1 then [Pair(BREAK, 0)] else [])
      + [Pair(ClampPx8(v.x8), ClampPx8(v.y8))]
  }

  /** Extents of the clamped vertices, as (min x, max x, min y, max y). */
  datatype Box = Box(x0: Int16, x1: Int16, y0: Int16, y1: Int16)

  function Extents(vs: seq<Vertex>): (b: Box)
    requires vs != []
  {
    var v := vs[|vs| - 1];
    var x, y := ClampPx8(v.x8), ClampPx8(v.y8);
    if |vs| == 1 then Box(x, x, y, y)
    else
      var b := Extents(vs[..|vs| - 1]);
      Box(if x < b.x0 then x else b.x0, if x > b.x1 then x else b.x1,
          if y < b.y0 then y else b.y0, if y > b.y1 then y else b.y1)
  }

  /** The extents contain every clamped vertex and each side touches one. */
  lemma {:induction false} ExtentsTight(vs: seq<Vertex>)
    requires vs != []
    ensures forall v :: v in vs ==> Extents(vs).x0 <= ClampPx8(v.x8) <= Extents(vs).x1
    ensures forall v :: v in vs ==> Extents(vs).y0 <= ClampPx8(v.y8) <= Extents(vs).y1
    ensures exists v :: v in vs && ClampPx8(v.x8) == Extents(vs).x0
    ensures exists v :: v in vs && ClampPx8(v.x8) == Extents(vs).x1
    ensures exists v :: v in vs && ClampPx8(v.y8) == Extents(vs).y0
    ensures exists v :: v in vs && ClampPx8(v.y8) == Extents(vs).y1
  {
    hide Extents, ClampPx8;
    ExtentsHold(vs);
    var a, b, c, d := ExtentsTouched(vs);
  }

  lemma {:induction false} ExtentsHold(vs: seq<Vertex>)
    requires vs != []
    ensures forall v :: v in vs ==> Extents(vs).x0 <= ClampPx8(v.x8) <= Extents(vs).x1
    ensures forall v :: v in vs ==> Extents(vs).y0 <= ClampPx8(v.y8) <= Extents(vs).y1
  {
    hide ClampPx8;
    var n := |vs| - 1;
    assert vs == vs[..n] + [vs[n]];
    if n > 0 { ExtentsHold(vs[..n]); }
  }

  lemma {:induction false} ExtentsTouched(vs: seq<Vertex>) returns (a: Vertex, b: Vertex, c: Vertex, d: Vertex)
    requires vs != []
    ensures a in vs && b in vs && c in vs && d in vs
    ensures ClampPx8(a.x8) == Extents(vs).x0 && ClampPx8(b.x8) == Extents(vs).x1
    ensures ClampPx8(c.y8) == Extents(vs).y0 && ClampPx8(d.y8) == Extents(vs).y1
  {
    hide ClampPx8;
    var n := |vs| - 1;
    a, b, c, d := vs[n], vs[n], vs[n], vs[n];
    if n > 0 {
      var e := Extents(vs[..n]);
      var v := vs[n];
      a, b, c, d := ExtentsTouched(vs[..n]);
      if ClampPx8(v.x8) < e.x0 { a := v; }
      if ClampPx8(v.x8) > e.x1 { b := v; }
      if ClampPx8(v.y8) < e.y0 { c := v; }
      if ClampPx8(v.y8) > e.y1 { d := v; }
    }
  }

  /** px8 extents as whole pixels: floor of the minimum, ceiling of the maximum. */
  function PolyRec(id: nat, vs: seq<Vertex>, count: nat): Rec {
    if vs == [] then Rec(id, POLY, 0, 0, 0, 0, 0, count)
    else
      var b := Extents(vs);
      Rec(id, POLY, 0, b.x0 / 8, b.y0 / 8, Up8(b.x1), Up8(b.y1), count)
  }

  function Up8(v: Int16): Int16 { (v + 7) / 8 }

  function PolyItem(id: nat, vs: seq<Vertex>): Item {
    Item(PolyRec(id, vs, |PolyWords(vs)|), PolyWords(vs))
  }

  function Abs32(v: Int32): Int32
    requires v > -0x8000_0000
  {
    if v < 0 then -v else v
  }

  function CircleItem(id: nat, cx: Int32, cy: Int32, r: Int32): Item
    requires r > -0x8000_0000
  {
    var a := Abs32(r);
    Item(Rec(id, CIRCLE, 0, ClampPx((cx - a) / 8), ClampPx((cy - a) / 8),
             ClampPx((cx + a + 7) / 8), ClampPx((cy + a + 7) / 8), 3),
         [U32(cx), U32(cy), U32(a)])
  }

  function GroupItem(id: nat, members: seq<Word>): Item {
    Item(Rec(id, GROUP, 0, 0, 0, 0, 0, |members|), members)
  }

  // ---- geom_store_get ----

  /** Looks record `id` up through an index of byte offsets into `mem`, of which the words
      from `first` up to byte `end` are data. Nothing outside them is read, whatever the index says. */
  function Get(mem: seq<Word>, index: seq<Word>, first: nat, end: nat, id: nat): (r: Option<Item>)
    requires |index| == MAX_DEFS && end <= 4 * |mem|
    ensures r.Some? ==> ItemOk(r.value) && r.value.rec.id == id
  {
    if id >= MAX_DEFS then None
    else
      var off := index[id];
      if off == ABSENT || off % 4 != 0 then None
      else if off < 4 * first || off > end || end - off < 16 then None
      else
        var p := off / 4;
        var r := ReadTrailer(mem[p..p + TRAILER]);
        var room := p - first;
        if r.kind == POLY && r.count > room then None
        else if r.kind == CIRCLE && (r.count != 3 || room < 3) then None
        else if r.kind == GROUP && (r.count > GROUP_MAX || r.count > room) then None
        else if r.kind != POLY && r.kind != CIRCLE && r.kind != GROUP then None
        else if r.id != id then None
        else Some(Item(r, mem[p - r.count..p]))
  }

  /** Record `i` lies at word p of mem, data before trailer. */
  ghost predicate Stored(mem: seq<Word>, first: nat, p: nat, i: Item) {
    && RecOk(i.rec)
    && first + |i.data| <= p && p + TRAILER <= |mem|
    && mem[p - |i.data|..p] == i.data
    && mem[p..p + TRAILER] == Trailer(i.rec)
  }

  lemma GetAbsent(mem: seq<Word>, index: seq<Word>, first: nat, end: nat, id: nat)
    requires |index| == MAX_DEFS && end <= 4 * |mem|
    requires id < MAX_DEFS ==> index[id] == ABSENT
    ensures Get(mem, index, first, end, id) == None
  {
  }

  /** A well-formed record is found wherever it is stored and indexed. */
  lemma GetStored(mem: seq<Word>, index: seq<Word>, first: nat, end: nat, id: nat, p: nat, i: Item)
    requires |index| == MAX_DEFS && end <= 4 * |mem| && id < MAX_DEFS
    requires Stored(mem, first, p, i) && ItemOk(i) && i.rec.id == id
    requires 4 * (p + TRAILER) <= end && 4 * p < ABSENT && index[id] == 4 * p
    ensures Get(mem, index, first, end, id) == Some(i)
  {
    TrailerRoundTrip(i.rec);
  }

  /** Nothing else is ever found: an answer is a well-formed record that lies whole, and aligned, where the
      index says and inside the data. */
  lemma {:induction false} GetOnlyStored(mem: seq<Word>, index: seq<Word>, first: nat, end: nat, id: nat)
    requires |index| == MAX_DEFS && end <= 4 * |mem|
    ensures var r := Get(mem, index, first, end, id);
            r.Some? ==> id < MAX_DEFS && ItemOk(r.value) && r.value.rec.id == id
                        && exists p: nat :: index[id] == 4 * p < ABSENT && 4 * (p + TRAILER) <= end && Stored(mem, first, p, r.value)
  {
    var r := Get(mem, index, first, end, id);
    if r.Some? {
      var p := index[id] / 4;
      TrailerBack(mem[p..p + TRAILER]);
      assert r.value.rec == ReadTrailer(mem[p..p + TRAILER]);
      hide ReadTrailer, Trailer, ItemOk;
      assert index[id] == 4 * p;
      assert Stored(mem, first, p, r.value);
    }
  }

  /** Every four words are the trailer of what is read from them. */
  lemma TrailerBack(t: seq<Word>)
    requires |t| == TRAILER
    ensures Trailer(ReadTrailer(t)) == t && RecOk(ReadTrailer(t))
  {
    Halves(t[1]);
    Halves(t[2]);
    Thirds(t[0]);
    hide Pair, PairX, PairY;
  }

  lemma Thirds(w: Word)
    ensures w % 0x1_0000 + 0x1_0000 * (w / 0x1_0000 % 0x100) + 0x100_0000 * (w / 0x100_0000) == w
  {
  }

  lemma Halves(w: Word)
    ensures Pair(PairX(w), PairY(w)) == w
  {
  }

  /** A vertex lies in its word as two's complement halves, x the lower one. */
  lemma PairIs(x: Int16, y: Int16)
    ensures Pair(x, y) % 0x1_0000 == x % 0x1_0000 && Pair(x, y) / 0x1_0000 == y % 0x1_0000
  {
  }
}
