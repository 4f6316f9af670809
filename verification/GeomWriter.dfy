/** The streaming record writer (geom_common.c) over an append-only backend of limited capacity, as
    functions on values, and the plain map from ids to records that it implements. */
module GeomWriter {
  import opened Prelude
  import opened GeomWords

  /** Words in the write-combining buffer (GEOM_WRITE_BUF_BYTES / 4). */
  const WBUF := 64

  /** The set being written: what the backend has accepted (`log`, of at most `cap` words, starting
      at word `first` of the region), the buffered words, and the record under construction. */
  datatype Writer = Writer(cap: nat, first: nat, log: seq<Word>, wbuf: seq<Word>, index: seq<Word>,
                           ndefs: nat, dropped: nat, active: bool, failed: bool, rec: Rec, dataOff: nat)

  const NO_REC := Rec(0, 0, 0, 0, 0, 0, 0, 0)

  /** A fresh set; the record structure still holds what the previous set left there. */
  function Begin(cap: nat, first: nat, rec: Rec, dataOff: nat): Writer {
    Writer(cap, first, [], [], seq(MAX_DEFS, _ => ABSENT), 0, 0, false, false, rec, dataOff)
  }

  predicate Fits(w: Writer, data: seq<Word>) { |w.log| + |data| <= w.cap }

  // ---- geom_common_flush, put, finish_record ----

  function Flush(w: Writer): (Writer, bool) {
    if w.wbuf == [] then (w, true)
    else if Fits(w, w.wbuf) then (w.(log := w.log + w.wbuf, wbuf := []), true)
    else (w, false)
  }

  /** How many of `left` words go into the buffer next. */
  function Take(w: Writer, left: nat): (n: nat)
    requires |w.wbuf| < WBUF
    ensures n <= left && |w.wbuf| + n <= WBUF && (left > 0 ==> n > 0)
    ensures |w.wbuf| + n < WBUF ==> n == left
  {
    if WBUF - |w.wbuf| > left then left else WBUF - |w.wbuf|
  }

  /** Words into the buffer, which is flushed when full and emptied if the backend refuses. */
  function Chunk(w: Writer, piece: seq<Word>): (r: (Writer, bool))
    requires |w.wbuf| + |piece| <= WBUF
    ensures r.0.cap == w.cap && r.0.first == w.first && |r.0.wbuf| < WBUF
  {
    var w1 := w.(wbuf := w.wbuf + piece);
    if |w1.wbuf| < WBUF then (w1, true)
    else
      var (w2, ok) := Flush(w1);
      if ok then (w2, true) else (w1.(wbuf := []), false)
  }

  function Put(w: Writer, data: seq<Word>): (r: (Writer, bool))
    requires |w.wbuf| < WBUF
    ensures r.0.cap == w.cap && r.0.first == w.first
    decreases |data|
  {
    if data == [] then (w, true)
    else
      var n := Take(w, |data|);
      var (w1, ok) := Chunk(w, data[..n]);
      if ok then Put(w1, data[n..]) else (w1, false)
  }

  function Drop(w: Writer): Writer { w.(wbuf := [], dropped := w.dropped + 1) }

  function Finish(w: Writer, rec: Rec): (r: (Writer, bool))
    requires |w.wbuf| < WBUF && RecOk(rec) && rec.id < |w.index|
    ensures r.0.cap == w.cap && r.0.first == w.first
  {
    var (w1, ok1) := Put(w, Trailer(rec));
    if !ok1 then (Drop(w1), false)
    else
      var (w2, ok2) := Flush(w1);
      if !ok2 then (Drop(w2), false)
      else
        var off := 4 * (w2.first + |w2.log| - TRAILER);
        if rec.id >= |w2.index| || !(0 <= off < 0x1_0000_0000) then (w2, false)
        else
          (w2.(ndefs := if w2.index[rec.id] == ABSENT then w2.ndefs + 1 else w2.ndefs,
               index := w2.index[rec.id := off]), true)
  }

  // ---- the public operations ----

  datatype Op =
    | AddCircle(id: nat, cx: Int32, cy: Int32, r: Int32)
    | AddGroup(id: nat, members: seq<Word>)
    | BeginPoly(id: nat)
    | AddVertex(v: Vertex)
    | EndPoly

  /** What C's types and the absence of signed overflow ask of the arguments. */
  predicate OpOk(op: Op) { op.AddCircle? ==> op.r > -0x8000_0000 }

  function AddWhole(w: Writer, i: Item): (r: (Writer, bool))
    requires |w.wbuf| < WBUF && RecOk(i.rec) && i.rec.id < |w.index|
    ensures r.0.cap == w.cap && r.0.first == w.first
  {
    var (w1, ok) := Put(w, i.data);
    if !ok then (Drop(w1), false)
    else if |w1.wbuf| < WBUF && i.rec.id < |w1.index| then Finish(w1, i.rec)
    else (w1, false)
  }

  function StartPoly(w: Writer, id: nat): Writer {
    w.(rec := NO_REC.(id := id, kind := POLY), dataOff := |w.log| + |w.wbuf|, active := true, failed := false)
  }

  /** rec.flags says whether the record has extents yet. */
  function Grow(rec: Rec, x: Int16, y: Int16): Rec {
    if rec.flags == 0 then rec.(bx0 := x, bx1 := x, by0 := y, by1 := y, flags := 1)
    else
      rec.(bx0 := if x < rec.bx0 then x else rec.bx0, bx1 := if x > rec.bx1 then x else rec.bx1,
           by0 := if y < rec.by0 then y else rec.by0, by1 := if y > rec.by1 then y else rec.by1)
  }

  function PutVertex(w: Writer, v: Vertex): (r: (Writer, bool))
    requires |w.wbuf| < WBUF
    ensures r.0.cap == w.cap && r.0.first == w.first
  {
    var x, y := ClampPx8(v.x8), ClampPx8(v.y8);
    var rec := Grow(w.rec, x, y);
    var (w1, ok) := Put(w.(rec := rec), [Pair(x, y)]);
    if ok then (w1.(rec := rec.(count := rec.count + 1)), true) else (w1.(failed := true), false)
  }

  function AddVertexTo(w: Writer, v: Vertex): (r: (Writer, bool))
    requires |w.wbuf| < WBUF
    ensures r.0.cap == w.cap && r.0.first == w.first
  {
    if v.start || w.rec.count == 0 then
      var (w1, ok) := Mark(w);
      if ok && |w1.wbuf| < WBUF then PutVertex(w1, v) else (w1, false)
    else PutVertex(w, v)
  }

  /** The marker before a contour's first vertex. */
  function Mark(w: Writer): (r: (Writer, bool))
    requires |w.wbuf| < WBUF
    ensures r.0.cap == w.cap && r.0.first == w.first
  {
    var (w1, ok) := Put(w, [Pair(BREAK, 0)]);
    if ok then (w1.(rec := w1.rec.(count := w1.rec.count + 1)), true) else (w1.(failed := true), false)
  }

  function Rounded(rec: Rec): Rec {
    if rec.flags == 0 then rec.(bx0 := 0, by0 := 0, bx1 := 0, by1 := 0)
    else rec.(bx0 := rec.bx0 / 8, by0 := rec.by0 / 8, bx1 := Up8(rec.bx1), by1 := Up8(rec.by1), flags := 0)
  }

  /** One call and the boolean it returns. */
  function Apply(w: Writer, op: Op): (r: (Writer, bool))
    requires Sound(w) && OpOk(op)
    ensures r.0.cap == w.cap && r.0.first == w.first
  {
    match op
    case AddCircle(id, cx, cy, r) =>
      if w.active || id >= MAX_DEFS then (w, false) else AddWhole(w, CircleItem(id, cx, cy, r))
    case AddGroup(id, members) =>
      if w.active || id >= MAX_DEFS || |members| > GROUP_MAX then (w, false)
      else AddWhole(w, GroupItem(id, members))
    case BeginPoly(id) =>
      if w.active || id >= MAX_DEFS then (w, false) else (StartPoly(w, id), true)
    case AddVertex(v) =>
      if !w.active || w.failed then (w, false) else AddVertexTo(w, v)
    case EndPoly =>
      if !w.active then (w, false) else Close(w)
  }

  function Close(w: Writer): (r: (Writer, bool))
    requires Sound(w)
    ensures r.0.cap == w.cap && r.0.first == w.first
  {
    var w1 := w.(active := false);
    if w.failed then (Drop(w1), false)
    else Finish(w1.(rec := Rounded(w.rec)), Rounded(w.rec))
  }

  /** What Apply asks of the writer, which every reachable writer satisfies. */
  predicate Sound(w: Writer) {
    |w.wbuf| < WBUF && |w.index| == MAX_DEFS && RecOk(w.rec) && w.rec.id < MAX_DEFS
  }

  /** Apply, as a function on all writers. */
  function Call(w: Writer, op: Op): (Writer, bool) {
    if Sound(w) && OpOk(op) then Apply(w, op) else (w, false)
  }

  // ---- put and flush as one append ----

  /** w2 has the words of w followed by `more`, and differs in nothing else. */
  ghost predicate Appended(w: Writer, more: seq<Word>, w2: Writer) {
    && w2 == w.(log := w2.log, wbuf := w2.wbuf)
    && w.log <= w2.log
    && w2.log + w2.wbuf == w.log + w.wbuf + more
  }

  /** w2 lost its buffered words: what the backend already had is intact. */
  ghost predicate Refused(w: Writer, w2: Writer) {
    && w2 == w.(log := w2.log, wbuf := w2.wbuf)
    && w.log <= w2.log && w2.wbuf == []
  }

  predicate Room(w: Writer) { |w.log| <= w.cap }

  lemma {:induction false} PutAppends(w: Writer, data: seq<Word>)
    requires |w.wbuf| < WBUF && Room(w)
    ensures Room(Put(w, data).0) && |Put(w, data).0.wbuf| < WBUF
    ensures Put(w, data).1 ==> Appended(w, data, Put(w, data).0)
    ensures !Put(w, data).1 ==> Refused(w, Put(w, data).0) && |w.log| + |w.wbuf| + |data| > w.cap
    ensures Put(w, data).1 && |Put(w, data).0.wbuf| == 0 ==> |w.log| + |w.wbuf| + |data| <= w.cap
    decreases |data|
  {
    if data != [] {
      var n := Take(w, |data|);
      var w1 := w.(wbuf := w.wbuf + data[..n]);
      assert data[..n] + data[n..] == data;
      if |w1.wbuf| < WBUF {
        assert data[n..] == [];
        assert Put(w1, data[n..]) == (w1, true);
      } else if Fits(w1, w1.wbuf) {
        var w2 := Flush(w1).0;
        PutAppends(w2, data[n..]);
        PutRest(w, data, n, w2, Put(w2, data[n..]).0, Put(w2, data[n..]).1);
      }
    }
  }

  lemma {:induction false} PutRest(w: Writer, data: seq<Word>, n: nat, w2: Writer, w3: Writer, ok: bool)
    requires n <= |data| && w2 == w.(log := w.log + (w.wbuf + data[..n]), wbuf := [])
    requires if ok then Appended(w2, data[n..], w3) else Refused(w2, w3)
    ensures if ok then Appended(w, data, w3) else Refused(w, w3)
  {
    assert data[..n] + data[n..] == data;
    assert w2.log + w2.wbuf + data[n..] == w.log + w.wbuf + (data[..n] + data[n..]);
  }

  /** A whole record appended through the buffer is accepted exactly when all of it fits. */
  lemma {:induction false} FinishAppends(w: Writer, rec: Rec)
    requires |w.wbuf| < WBUF && Room(w) && RecOk(rec) && rec.id < |w.index| && Addressable(w)
    ensures var (w2, ok) := Finish(w, rec);
            && (ok <==> |w.log| + |w.wbuf| + TRAILER <= w.cap)
            && (ok ==> w2 == Indexed(w, rec))
            && (!ok ==> Refused(w.(dropped := w.dropped + 1), w2) && Room(w2))
  {
    PutAppends(w, Trailer(rec));
    var (w1, ok1) := Put(w, Trailer(rec));
    if ok1 {
      assert Flush(w1).1 ==> Flush(w1).0.log == w.log + w.wbuf + Trailer(rec);
    }
  }

  /** The region's byte addresses fit 32 bits below the "absent" mark. */
  predicate Addressable(w: Writer) { 4 * (w.first + w.cap) < ABSENT }

  /** The writer after record `rec`, whose data is already queued, was flushed and indexed. */
  function Indexed(w: Writer, rec: Rec): Writer
    requires RecOk(rec) && rec.id < |w.index| && Addressable(w)
    requires |w.log| + |w.wbuf| + TRAILER <= w.cap
  {
    var p := |w.log| + |w.wbuf|;
    w.(log := w.log + w.wbuf + Trailer(rec), wbuf := [],
       ndefs := if w.index[rec.id] == ABSENT then w.ndefs + 1 else w.ndefs,
       index := w.index[rec.id := 4 * (w.first + p)])
  }

  // ---- the map of finished records ----

  type Defs = map<nat, Item>

  /** Every finished record lies in the log where the index says, and nothing else is indexed. */
  ghost predicate Holds(w: Writer, defs: Defs) {
    && |w.index| == MAX_DEFS && w.ndefs == |defs|
    && (forall id :: id in defs ==> id < MAX_DEFS)
    && (forall id :: 0 <= id < MAX_DEFS ==> HoldsId(w, defs, id))
  }

  ghost predicate HoldsId(w: Writer, defs: Defs, id: nat)
    requires id < |w.index|
  {
    if id in defs then
      && ItemOk(defs[id]) && defs[id].rec.id == id
      && w.index[id] % 4 == 0 && 4 * w.first <= w.index[id] < ABSENT
      && Stored(w.log, 0, w.index[id] / 4 - w.first, defs[id])
    else w.index[id] == ABSENT
  }

  lemma {:induction false} StoredGrows(log: seq<Word>, log': seq<Word>, p: nat, i: Item)
    requires log <= log' && Stored(log, 0, p, i)
    ensures Stored(log', 0, p, i)
  {
    assert log'[p - |i.data|..p] == log[p - |i.data|..p];
    assert log'[p..p + TRAILER] == log[p..p + TRAILER];
  }

  /** Growing the log leaves every finished record in place. */
  lemma {:induction false} HoldsGrows(w: Writer, w': Writer, defs: Defs)
    requires Holds(w, defs) && w.log <= w'.log && w'.index == w.index && w'.first == w.first && w'.ndefs == w.ndefs
    ensures Holds(w', defs)
  {
    forall id | 0 <= id < MAX_DEFS
      ensures HoldsId(w', defs, id)
    {
      assert HoldsId(w, defs, id);
      if id in defs { StoredGrows(w.log, w'.log, w.index[id] / 4 - w.first, defs[id]); }
    }
  }

  lemma {:induction false} IndexedStores(w: Writer, i: Item)
    requires ItemOk(i) && Addressable(w) && i.rec.id < |w.index|
    requires |w.log| + |w.wbuf| + TRAILER <= w.cap
    requires |i.data| <= |w.log| + |w.wbuf| && (w.log + w.wbuf)[|w.log| + |w.wbuf| - |i.data|..] == i.data
    ensures Stored(Indexed(w, i.rec).log, 0, |w.log| + |w.wbuf|, i)
  {
    var w', p := Indexed(w, i.rec), |w.log| + |w.wbuf|;
    assert w'.log == (w.log + w.wbuf) + Trailer(i.rec);
    assert w'.log[p - |i.data|..p] == (w.log + w.wbuf)[p - |i.data|..];
  }

  lemma {:induction false} IndexedHolds(w: Writer, defs: Defs, i: Item)
    requires Holds(w, defs) && ItemOk(i) && Addressable(w)
    requires |w.log| + |w.wbuf| + TRAILER <= w.cap
    requires |i.data| <= |w.log| + |w.wbuf| && (w.log + w.wbuf)[|w.log| + |w.wbuf| - |i.data|..] == i.data
    ensures Holds(Indexed(w, i.rec), defs[i.rec.id := i])
  {
    var w', defs' := Indexed(w, i.rec), defs[i.rec.id := i];
    IndexedCounts(w, defs, i);
    forall id | 0 <= id < MAX_DEFS
      ensures HoldsId(w', defs', id)
    {
      if id != i.rec.id { IndexedKeeps(w, defs, i, id); } else { IndexedNew(w, defs, i); }
    }
  }

  lemma {:induction false} IndexedCounts(w: Writer, defs: Defs, i: Item)
    requires |w.index| == MAX_DEFS && w.ndefs == |defs| && ItemOk(i) && HoldsId(w, defs, i.rec.id)
    requires Addressable(w) && |w.log| + |w.wbuf| + TRAILER <= w.cap
    ensures Indexed(w, i.rec).ndefs == |defs[i.rec.id := i]|
  {
    assert defs[i.rec.id := i].Keys == defs.Keys + {i.rec.id};
  }

  lemma {:induction false} IndexedNew(w: Writer, defs: Defs, i: Item)
    requires |w.index| == MAX_DEFS && ItemOk(i) && Addressable(w)
    requires |w.log| + |w.wbuf| + TRAILER <= w.cap
    requires |i.data| <= |w.log| + |w.wbuf| && (w.log + w.wbuf)[|w.log| + |w.wbuf| - |i.data|..] == i.data
    ensures HoldsId(Indexed(w, i.rec), defs[i.rec.id := i], i.rec.id)
  {
    IndexedStores(w, i);
  }

  lemma {:induction false} IndexedKeeps(w: Writer, defs: Defs, i: Item, id: nat)
    requires |w.index| == MAX_DEFS && id < MAX_DEFS && HoldsId(w, defs, id) && ItemOk(i) && Addressable(w)
    requires |w.log| + |w.wbuf| + TRAILER <= w.cap && id != i.rec.id
    ensures HoldsId(Indexed(w, i.rec), defs[i.rec.id := i], id)
  {
    assert w.log <= Indexed(w, i.rec).log;
    if id in defs { StoredGrows(w.log, Indexed(w, i.rec).log, w.index[id] / 4 - w.first, defs[id]); }
  }

  // ---- the abstract store and the refinement ----

  /** The records finished so far and the polygon being built, if any. */
  datatype Abs = Abs(defs: Defs, cur: Option<(nat, seq<Vertex>)>)

  /** The effect of a call, given what it returned. */
  function AbsStep(a: Abs, op: Op, ok: bool): Abs
    requires OpOk(op)
  {
    match op
    case AddCircle(id, cx, cy, r) => if ok then a.(defs := a.defs[id := CircleItem(id, cx, cy, r)]) else a
    case AddGroup(id, members) => if ok then a.(defs := a.defs[id := GroupItem(id, members)]) else a
    case BeginPoly(id) => if ok then a.(cur := Some((id, []))) else a
    case AddVertex(v) => if ok && a.cur.Some? then a.(cur := Some((a.cur.value.0, a.cur.value.1 + [v]))) else a
    case EndPoly =>
      if a.cur == None then a
      else if ok then Abs(a.defs[a.cur.value.0 := PolyItem(a.cur.value.0, a.cur.value.1)], None)
      else a.(cur := None)
  }

  /** The record under construction describes the vertices given so far. */
  ghost predicate Describes(rec: Rec, id: nat, vs: seq<Vertex>) {
    && rec.id == id && rec.kind == POLY && rec.count == |PolyWords(vs)|
    && (if vs == [] then rec == NO_REC.(id := id, kind := POLY)
        else rec.flags == 1 && Extents(vs) == Box(rec.bx0, rec.bx1, rec.by0, rec.by1))
  }

  /** All words written for the current record, in order. */
  ghost predicate Building(w: Writer, id: nat, vs: seq<Vertex>) {
    && id < MAX_DEFS && w.rec.id == id && RecOk(w.rec)
    && (if w.failed then w.wbuf == []
        else
          && Describes(w.rec, id, vs)
          && w.dataOff <= |w.log| + |w.wbuf|
          && (w.log + w.wbuf)[w.dataOff..] == PolyWords(vs))
  }

  ghost predicate Refines(w: Writer, a: Abs) {
    && Room(w) && |w.wbuf| < WBUF && Addressable(w) && RecOk(w.rec) && w.rec.id < MAX_DEFS
    && Holds(w, a.defs)
    && (w.active <==> a.cur.Some?)
    && (if w.active then Building(w, a.cur.value.0, a.cur.value.1) else w.wbuf == [])
  }

  lemma {:induction false} BeginRefines(cap: nat, first: nat, rec: Rec, dataOff: nat)
    requires 4 * (first + cap) < ABSENT && RecOk(rec) && rec.id < MAX_DEFS
    ensures Refines(Begin(cap, first, rec, dataOff), Abs(map[], None))
  {
  }

  lemma {:induction false} AddWholeRefines(w: Writer, a: Abs, i: Item)
    requires Refines(w, a) && !w.active && ItemOk(i)
    ensures var (w', ok) := AddWhole(w, i);
            && Refines(w', if ok then a.(defs := a.defs[i.rec.id := i]) else a)
            && (ok <==> |w.log| + |i.data| + TRAILER <= w.cap)
  {
    PutAppends(w, i.data);
    var (w1, ok1) := Put(w, i.data);
    if ok1 {
      HoldsGrows(w, w1, a.defs);
      assert |w1.log| + |w1.wbuf| == |w.log| + |i.data|;
      assert (w1.log + w1.wbuf)[|w.log|..] == i.data;
      QueuedFinishes(w1, a.defs, i);
    } else {
      HoldsGrows(w, Drop(w1), a.defs);
    }
  }

  /** Queuing words for the open record: they follow the record's earlier words, or the record is
      marked failed. */
  lemma {:induction false} PutBuilding(w: Writer, data: seq<Word>)
    requires |w.wbuf| < WBUF && Room(w) && w.dataOff <= |w.log| + |w.wbuf|
    ensures var (w1, ok) := Put(w, data);
            ok ==> w1.dataOff <= |w1.log| + |w1.wbuf|
                   && (w1.log + w1.wbuf)[w1.dataOff..] == (w.log + w.wbuf)[w.dataOff..] + data
  {
    PutAppends(w, data);
    var (w1, ok) := Put(w, data);
    if ok {
      assert w1.log + w1.wbuf == (w.log + w.wbuf) + data;
    }
  }

  lemma {:induction false} PolyWordsAdd(vs: seq<Vertex>, v: Vertex)
    ensures PolyWords(vs + [v])
            == PolyWords(vs) + (if v.start || vs == [] then [Pair(BREAK, 0)] else []) + [Pair(ClampPx8(v.x8), ClampPx8(v.y8))]
  {
    assert (vs + [v])[..|vs|] == vs;
  }

  lemma {:induction false} PolyWordsEmpty(vs: seq<Vertex>)
    ensures |PolyWords(vs)| == 0 <==> vs == []
    ensures |PolyWords(vs)| >= |vs|
  {
    if vs != [] { PolyWordsEmpty(vs[..|vs| - 1]); }
  }

  lemma {:induction false} ExtentsAdd(rec: Rec, id: nat, vs: seq<Vertex>, v: Vertex)
    requires Describes(rec, id, vs)
    ensures var g := Grow(rec, ClampPx8(v.x8), ClampPx8(v.y8));
            g.flags == 1 && Extents(vs + [v]) == Box(g.bx0, g.bx1, g.by0, g.by1) && g.id == id && g.kind == POLY
  {
    assert (vs + [v])[..|vs|] == vs;
  }

  /** Between the marker and the vertex: `pre` follows the words of vs. */
  ghost predicate Mid(w: Writer, id: nat, vs: seq<Vertex>, pre: seq<Word>) {
    && !w.failed && w.rec.count == |PolyWords(vs)| + |pre|
    && Describes(w.rec.(count := |PolyWords(vs)|), id, vs)
    && w.dataOff <= |w.log| + |w.wbuf|
    && (w.log + w.wbuf)[w.dataOff..] == PolyWords(vs) + pre
  }

  /** The conjuncts of Refines other than the open record. */
  ghost predicate Frame(w: Writer, defs: Defs) {
    && Room(w) && |w.wbuf| < WBUF && Addressable(w) && Holds(w, defs)
  }

  lemma {:induction false} PutFrame(w: Writer, defs: Defs, data: seq<Word>)
    requires Frame(w, defs)
    ensures Frame(Put(w, data).0, defs)
  {
    PutAppends(w, data);
    HoldsGrows(w, Put(w, data).0, defs);
  }

  lemma {:induction false} PutVertexBuilds(w: Writer, defs: Defs, id: nat, vs: seq<Vertex>, v: Vertex)
    requires Frame(w, defs) && id < MAX_DEFS && w.active
    requires Mid(w, id, vs, if v.start || vs == [] then [Pair(BREAK, 0)] else [])
    ensures var (w', ok) := PutVertex(w, v);
            && Frame(w', defs) && w'.active
            && (if ok then !w'.failed && Building(w', id, vs + [v]) else w'.failed && Building(w', id, vs))
  {
    var x, y := ClampPx8(v.x8), ClampPx8(v.y8);
    var w0 := w.(rec := Grow(w.rec, x, y));
    HoldsGrows(w, w0, defs);
    PutFrame(w0, defs, [Pair(x, y)]);
    PutBuilding(w0, [Pair(x, y)]);
    PutAppends(w0, [Pair(x, y)]);
    HoldsGrows(Put(w0, [Pair(x, y)]).0, PutVertex(w, v).0, defs);
    PolyWordsAdd(vs, v);
    ExtentsAdd(w.rec.(count := |PolyWords(vs)|), id, vs, v);
    assert |w.log| + |w.wbuf| >= w.rec.count;
  }

  lemma {:induction false} MarkBuilds(w: Writer, defs: Defs, id: nat, vs: seq<Vertex>)
    requires Frame(w, defs) && w.active && !w.failed && Building(w, id, vs)
    ensures var (w1, ok) := Mark(w);
            && Frame(w1, defs) && w1.active
            && (if ok then Mid(w1, id, vs, [Pair(BREAK, 0)]) else w1.failed && Building(w1, id, vs))
  {
    hide Put, Pair;
    var b := [Pair(BREAK, 0)];
    PolyWordsEmpty(vs);
    PutFrame(w, defs, b);
    PutBuilding(w, b);
    PutAppends(w, b);
    HoldsGrows(Put(w, b).0, Mark(w).0, defs);
  }

  lemma {:induction false} AddVertexBuilds(w: Writer, defs: Defs, id: nat, vs: seq<Vertex>, v: Vertex)
    requires Frame(w, defs) && w.active && !w.failed && Building(w, id, vs)
    ensures var (w', ok) := AddVertexTo(w, v);
            && Frame(w', defs) && w'.active
            && (if ok then !w'.failed && Building(w', id, vs + [v]) else w'.failed && Building(w', id, vs))
  {
    hide Mark, PutVertex, Pair;
    PolyWordsEmpty(vs);
    if v.start || vs == [] {
      MarkBuilds(w, defs, id, vs);
      var (w1, ok) := Mark(w);
      if ok { PutVertexBuilds(w1, defs, id, vs, v); }
    } else {
      PutVertexBuilds(w, defs, id, vs, v);
    }
  }

  lemma {:induction false} RoundedIsPolyRec(rec: Rec, id: nat, vs: seq<Vertex>)
    requires Describes(rec, id, vs)
    ensures Rounded(rec) == PolyRec(id, vs, |PolyWords(vs)|)
  {
  }

  lemma {:induction false} EndPolyRefines(w: Writer, a: Abs)
    requires Refines(w, a) && w.active
    ensures var (w', ok) := Apply(w, EndPoly);
            && Refines(w', AbsStep(a, EndPoly, ok))
            && (ok <==> !w.failed && |w.log| + |w.wbuf| + TRAILER <= w.cap)
  {
    var (id, vs) := a.cur.value;
    if w.failed {
      HoldsGrows(w, Apply(w, EndPoly).0, a.defs);
    } else {
      RoundedIsPolyRec(w.rec, id, vs);
      assert |PolyWords(vs)| == |w.log| + |w.wbuf| - w.dataOff;
      var w1 := w.(active := false, rec := PolyItem(id, vs).rec);
      HoldsGrows(w, w1, a.defs);
      QueuedFinishes(w1, a.defs, PolyItem(id, vs));
    }
  }

  /** Finishing a record whose data is the last thing queued. */
  lemma {:induction false} QueuedFinishes(w: Writer, defs: Defs, i: Item)
    requires Frame(w, defs) && ItemOk(i) && i.rec.id < |w.index|
    requires |i.data| <= |w.log| + |w.wbuf| && (w.log + w.wbuf)[|w.log| + |w.wbuf| - |i.data|..] == i.data
    ensures var (w', ok) := Finish(w, i.rec);
            && w' == w.(log := w'.log, wbuf := [], dropped := w'.dropped, ndefs := w'.ndefs, index := w'.index)
            && Frame(w', if ok then defs[i.rec.id := i] else defs)
            && (ok <==> |w.log| + |w.wbuf| + TRAILER <= w.cap)
  {
    FinishAppends(w, i.rec);
    if |w.log| + |w.wbuf| + TRAILER <= w.cap {
      IndexedHolds(w, defs, i);
    } else {
      HoldsGrows(w, Finish(w, i.rec).0, defs);
    }
  }

  lemma {:induction false} StartPolyRefines(w: Writer, a: Abs, id: nat)
    requires Refines(w, a) && !w.active && id < MAX_DEFS
    ensures Refines(StartPoly(w, id), a.(cur := Some((id, []))))
  {
    HoldsGrows(w, StartPoly(w, id), a.defs);
  }

  /** Every call keeps the store a faithful picture of the records finished so far, whether it
      succeeds, is refused for its arguments, or runs out of space part-way. */
  lemma {:induction false} ApplyRefines(w: Writer, a: Abs, op: Op)
    requires Refines(w, a) && OpOk(op)
    ensures Sound(w)
    ensures var (w', ok) := Call(w, op); Refines(w', AbsStep(a, op, ok))
  {
    match op
    case AddCircle(id, cx, cy, r) =>
      if !w.active && id < MAX_DEFS { AddWholeRefines(w, a, CircleItem(id, cx, cy, r)); }
    case AddGroup(id, members) =>
      if !w.active && id < MAX_DEFS && |members| <= GROUP_MAX { AddWholeRefines(w, a, GroupItem(id, members)); }
    case BeginPoly(id) =>
      if !w.active && id < MAX_DEFS { StartPolyRefines(w, a, id); }
    case AddVertex(v) =>
      if w.active && !w.failed { AddVertexBuilds(w, a.defs, a.cur.value.0, a.cur.value.1, v); }
    case EndPoly =>
      if w.active { EndPolyRefines(w, a); }
  }

  // ---- whole sets ----

  /** The writer and the abstract store after a sequence of calls on a fresh set. */
  ghost function Written(cap: nat, first: nat, ops: seq<Op>): (r: (Writer, Abs))
    requires 4 * (first + cap) < ABSENT && forall op :: op in ops ==> OpOk(op)
    ensures Refines(r.0, r.1) && r.0.cap == cap && r.0.first == first
  {
    if ops == [] then
      BeginRefines(cap, first, NO_REC, 0);
      (Begin(cap, first, NO_REC, 0), Abs(map[], None))
    else
      var (w, a) := Written(cap, first, ops[..|ops| - 1]);
      var op := ops[|ops| - 1];
      ApplyRefines(w, a, op);
      var (w', ok) := Call(w, op);
      (w', AbsStep(a, op, ok))
  }

  // ---- nothing of the previous set shows ----

  function Over(w: Writer, rec: Rec, dataOff: nat): Writer { w.(rec := rec, dataOff := dataOff) }

  /** Writers that differ at most in what an earlier record left in the record structure. */
  ghost predicate Alike(v: Writer, w: Writer) {
    v == Over(w, v.rec, v.dataOff) && (v.active ==> v == w)
  }

  lemma BeginAlike(cap: nat, first: nat, rec: Rec, dataOff: nat)
    ensures Alike(Begin(cap, first, rec, dataOff), Begin(cap, first, NO_REC, 0))
  {
  }

  lemma {:induction false} PutOver(w: Writer, data: seq<Word>, rec: Rec, dataOff: nat)
    requires |w.wbuf| < WBUF
    ensures Put(Over(w, rec, dataOff), data) == (Over(Put(w, data).0, rec, dataOff), Put(w, data).1)
    decreases |data|
  {
    if data != [] {
      var n := Take(w, |data|);
      var (w1, ok) := Chunk(w, data[..n]);
      assert Chunk(Over(w, rec, dataOff), data[..n]) == (Over(w1, rec, dataOff), ok);
      if ok { PutOver(w1, data[n..], rec, dataOff); }
    }
  }

  lemma {:induction false} FinishOver(w: Writer, r: Rec, rec: Rec, dataOff: nat)
    requires |w.wbuf| < WBUF && RecOk(r) && r.id < |w.index|
    ensures Finish(Over(w, rec, dataOff), r) == (Over(Finish(w, r).0, rec, dataOff), Finish(w, r).1)
  {
    hide Put, Flush, Trailer;
    PutOver(w, Trailer(r), rec, dataOff);
    FlushOver(Put(w, Trailer(r)).0, rec, dataOff);
  }

  lemma {:induction false} FlushOver(w: Writer, rec: Rec, dataOff: nat)
    ensures Flush(Over(w, rec, dataOff)) == (Over(Flush(w).0, rec, dataOff), Flush(w).1)
  {
  }

  lemma {:induction false} AddWholeOver(w: Writer, i: Item, rec: Rec, dataOff: nat)
    requires |w.wbuf| < WBUF && RecOk(i.rec) && i.rec.id < |w.index|
    ensures AddWhole(Over(w, rec, dataOff), i) == (Over(AddWhole(w, i).0, rec, dataOff), AddWhole(w, i).1)
  {
    hide Put, Finish;
    PutOver(w, i.data, rec, dataOff);
    var (w1, ok) := Put(w, i.data);
    if ok && |w1.wbuf| < WBUF && i.rec.id < |w1.index| { FinishOver(w1, i.rec, rec, dataOff); }
  }

  lemma {:induction false} PutSameActive(w: Writer, data: seq<Word>)
    requires |w.wbuf| < WBUF
    ensures Put(w, data).0.active == w.active && Put(w, data).0.rec == w.rec && Put(w, data).0.dataOff == w.dataOff
    decreases |data|
  {
    if data != [] {
      var n := Take(w, |data|);
      var (w1, ok) := Chunk(w, data[..n]);
      if ok { PutSameActive(w1, data[n..]); }
    }
  }

  lemma {:induction false} AddWholeSameActive(w: Writer, i: Item)
    requires |w.wbuf| < WBUF && RecOk(i.rec) && i.rec.id < |w.index|
    ensures AddWhole(w, i).0.active == w.active
  {
    hide Put, Trailer;
    PutSameActive(w, i.data);
    var (w1, ok) := Put(w, i.data);
    if ok && |w1.wbuf| < WBUF && i.rec.id < |w1.index| { PutSameActive(w1, Trailer(i.rec)); }
  }

  /** What a call returns and stores does not depend on leftovers. */
  lemma {:induction false} CallAlike(v: Writer, w: Writer, op: Op)
    requires Alike(v, w) && Sound(v) && Sound(w)
    ensures Call(v, op).1 == Call(w, op).1 && Alike(Call(v, op).0, Call(w, op).0)
  {
    hide AddWhole, AddVertexTo, Close;
    if !v.active && OpOk(op) {
      match op
      case AddCircle(id, cx, cy, r) =>
        if id < MAX_DEFS {
          AddWholeOver(w, CircleItem(id, cx, cy, r), v.rec, v.dataOff);
          AddWholeSameActive(v, CircleItem(id, cx, cy, r));
        }
      case AddGroup(id, members) =>
        if id < MAX_DEFS && |members| <= GROUP_MAX {
          AddWholeOver(w, GroupItem(id, members), v.rec, v.dataOff);
          AddWholeSameActive(v, GroupItem(id, members));
        }
      case BeginPoly(id) =>
      case AddVertex(x) =>
      case EndPoly =>
    }
  }

  /** One more call on a writer that has made the first n. */
  lemma {:induction false} WrittenNext(cap: nat, first: nat, ops: seq<Op>, n: nat, w: Writer, a: Abs)
    requires 4 * (first + cap) < ABSENT && (forall op :: op in ops ==> OpOk(op)) && n < |ops|
    requires Refines(w, a) && Alike(w, Written(cap, first, ops[..n]).0) && a == Written(cap, first, ops[..n]).1
    ensures var (w', ok) := Call(w, ops[n]);
            Alike(w', Written(cap, first, ops[..n + 1]).0) && AbsStep(a, ops[n], ok) == Written(cap, first, ops[..n + 1]).1
  {
    hide Call, AbsStep, Refines, Alike;
    var (v, b) := Written(cap, first, ops[..n]);
    assert ops[..n + 1][..n] == ops[..n];
    ApplyRefines(w, a, ops[n]);
    ApplyRefines(v, b, ops[n]);
    CallAlike(w, v, ops[n]);
  }

  lemma Sub(mem: seq<Word>, first: nat, log: seq<Word>, lo: nat, hi: nat)
    requires first + |log| <= |mem| && mem[first..first + |log|] == log && lo <= hi <= |log|
    ensures mem[first + lo..first + hi] == log[lo..hi]
  {
    forall k | lo <= k < hi
      ensures mem[first + k] == log[k]
    {
      assert mem[first..first + |log|][k] == mem[first + k];
    }
  }

  /** What a reader of the finished log finds: the last record finished for each id, nothing else. */
  lemma {:induction false} GetReturnsLast(w: Writer, a: Abs, mem: seq<Word>, id: nat)
    requires Refines(w, a) && w.first + |w.log| <= |mem| && mem[w.first..w.first + |w.log|] == w.log
    ensures Get(mem, w.index, w.first, 4 * (w.first + |w.log|), id) == if id in a.defs && id < MAX_DEFS then Some(a.defs[id]) else None
  {
    hide Get;
    assert id < MAX_DEFS ==> HoldsId(w, a.defs, id);
    if id < MAX_DEFS && id in a.defs {
      var p, i := w.index[id] / 4 - w.first, a.defs[id];
      StoredInRegion(mem, w.first, w.log, p, i);
      GetStored(mem, w.index, w.first, 4 * (w.first + |w.log|), id, w.first + p, i);
    } else {
      GetAbsent(mem, w.index, w.first, 4 * (w.first + |w.log|), id);
    }
  }

  /** A record in the log is a record in the region that holds the log. */
  lemma {:induction false} StoredInRegion(mem: seq<Word>, first: nat, log: seq<Word>, p: nat, i: Item)
    requires first + |log| <= |mem| && mem[first..first + |log|] == log && Stored(log, 0, p, i)
    ensures Stored(mem, first, first + p, i)
  {
    hide Trailer;
    Sub(mem, first, log, p, p + TRAILER);
    Sub(mem, first, log, p - |i.data|, p);
  }

  /** A polygon is finished exactly when all of it fits: its words and its trailer, after what the
      log held when it was begun. */
  lemma {:induction false} PolyFits(w: Writer, a: Abs, vs: seq<Vertex>)
    requires Refines(w, a) && w.active && a.cur.value.1 == vs && !w.failed
    ensures Apply(w, EndPoly).1 <==> w.dataOff + |PolyWords(vs)| + TRAILER <= w.cap
  {
    EndPolyRefines(w, a);
    assert |w.log + w.wbuf| == w.dataOff + |PolyWords(vs)|;
  }

  lemma {:induction false} KeysBelow(s: set<nat>, n: nat)
    requires forall x :: x in s ==> x < n
    ensures |s| <= n
  {
    if n == 0 {
      assert s == {};
    } else {
      KeysBelow(s - {n - 1}, n - 1);
    }
  }

  /** The definition count never exceeds the size of the index. */
  lemma {:induction false} CountBounded(w: Writer, defs: Defs)
    requires Holds(w, defs)
    ensures w.ndefs <= MAX_DEFS
  {
    KeysBelow(defs.Keys, MAX_DEFS);
  }
}
