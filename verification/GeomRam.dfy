/** The second backend of the geometry store (geom_ram.c): two buffers in memory that trade places
    at commit, under the same record writer. The set on show is never disturbed by a set being
    written, whatever becomes of it. */
module GeomRam {
  import opened Prelude
  import opened GeomWords
  import opened NorFlash
  import W = GeomWriter
  import F = GeomFlash

  /** What the backend has accepted never shrinks or changes during a call. */
  lemma {:induction false} FinishExtends(w: W.Writer, rec: Rec)
    requires |w.wbuf| < W.WBUF && W.Room(w) && RecOk(rec) && rec.id < |w.index|
    ensures w.log <= W.Finish(w, rec).0.log
  {
    hide W.Put, Trailer;
    W.PutAppends(w, Trailer(rec));
  }

  lemma {:induction false} AddWholeExtends(w: W.Writer, i: Item)
    requires |w.wbuf| < W.WBUF && W.Room(w) && RecOk(i.rec) && i.rec.id < |w.index|
    ensures w.log <= W.AddWhole(w, i).0.log
  {
    hide W.Put, W.Finish;
    W.PutAppends(w, i.data);
    var (w1, ok) := W.Put(w, i.data);
    if ok && |w1.wbuf| < W.WBUF && i.rec.id < |w1.index| { FinishExtends(w1, i.rec); }
  }

  lemma {:induction false} PutVertexExtends(w: W.Writer, v: Vertex)
    requires |w.wbuf| < W.WBUF && W.Room(w)
    ensures w.log <= W.PutVertex(w, v).0.log
  {
    hide W.Put, W.Grow, Pair, ClampPx8;
    var x, y := ClampPx8(v.x8), ClampPx8(v.y8);
    W.PutAppends(w.(rec := W.Grow(w.rec, x, y)), [Pair(x, y)]);
  }

  lemma {:induction false} AddVertexExtends(w: W.Writer, v: Vertex)
    requires |w.wbuf| < W.WBUF && W.Room(w)
    ensures w.log <= W.AddVertexTo(w, v).0.log
  {
    hide W.Put, W.PutVertex, Pair;
    if v.start || w.rec.count == 0 {
      W.PutAppends(w, [Pair(BREAK, 0)]);
      var (w1, ok) := W.Put(w, [Pair(BREAK, 0)]);
      if ok && |w1.wbuf| < W.WBUF { PutVertexExtends(w1.(rec := w1.rec.(count := w1.rec.count + 1)), v); }
    } else {
      PutVertexExtends(w, v);
    }
  }

  /** No call takes back or changes a word the backend has accepted. */
  lemma {:induction false} CallExtends(w: W.Writer, op: W.Op)
    requires W.Room(w)
    ensures w.log <= W.Call(w, op).0.log
  {
    hide W.AddWhole, W.AddVertexTo, W.Finish;
    if W.Sound(w) && W.OpOk(op) {
      match op
      case AddCircle(id, cx, cy, r) =>
        if !w.active && id < MAX_DEFS { AddWholeExtends(w, CircleItem(id, cx, cy, r)); }
      case AddGroup(id, members) =>
        if !w.active && id < MAX_DEFS && |members| <= GROUP_MAX { AddWholeExtends(w, GroupItem(id, members)); }
      case BeginPoly(id) =>
      case AddVertex(v) =>
        if w.active && !w.failed { AddVertexExtends(w, v); }
      case EndPoly =>
        if w.active && !w.failed { FinishExtends(w.(active := false, rec := W.Rounded(w.rec)), W.Rounded(w.rec)); }
    }
  }

  /** A committed set: its buffer holds the finished log, its index leads to every record. */
  ghost predicate OnShow(mem: seq<Word>, index: seq<Word>, end: nat, n: nat, w: W.Writer, a: W.Abs) {
    && W.Refines(w, a) && w.first == 0 && w.index == index && end == 4 * |w.log| && n == |a.defs|
    && |w.log| <= |mem| && mem[..|w.log|] == w.log
  }

  lemma {:induction false} ShowsLast(mem: seq<Word>, index: seq<Word>, end: nat, n: nat, w: W.Writer, a: W.Abs, i: nat)
    requires OnShow(mem, index, end, n, w, a)
    ensures |index| == MAX_DEFS && end <= 4 * |mem|
    ensures Get(mem, index, 0, end, i) == F.Recorded(a.defs, i)
  {
    hide Get;
    assert mem[0..0 + |w.log|] == mem[..|w.log|];
    W.GetReturnsLast(w, a, mem, i);
  }

  class RamStore {
    // ram_impl_t
    var rd: array<Word>
    var wr: array<Word>
    // the set being written
    var writing: bool
    var w: W.Writer
    var wrId: seq<Byte>
    ghost var abs: W.Abs
    // the set on show
    var rdIndex: seq<Word>
    var rdEnd: nat
    var ndefs: nat
    var id: seq<Byte>
    var setWh: Word
    var resWh: Word
    var present: bool
    var isOpen: bool
    ghost var kept: W.Writer
    ghost var shown: W.Abs

    ghost predicate Valid()
      reads this, rd, wr
    {
      && rd != wr && rd.Length == wr.Length && 4 * wr.Length < ABSENT
      && |id| == |wrId| == ID_BYTES && RecOk(w.rec) && w.rec.id < MAX_DEFS
      && (writing ==> Writing())
      && (isOpen ==> present && F.Suits(setWh, resWh))
      && (present ==> OnShow(rd[..], rdIndex, rdEnd, ndefs, kept, shown))
    }

    ghost predicate Writing()
      reads this, wr
    {
      W.Refines(w, abs) && Synced()
    }

    /** The spare buffer holds what the writer's backend has accepted. */
    ghost predicate Synced()
      reads this`w, this`wr, wr
    {
      w.cap == wr.Length && w.first == 0 && 4 * wr.Length < ABSENT && |w.log| <= wr.Length && wr[..|w.log|] == w.log
    }

    /** geom_ram_create. */
    constructor (capacity: nat)
      requires 4 * capacity < ABSENT
      ensures Valid() && fresh(rd) && fresh(wr) && wr.Length == capacity && !writing && !present
    {
      rd, wr := new Word[capacity], new Word[capacity];
      writing, present, isOpen := false, false, false;
      w := W.Begin(0, 0, W.NO_REC, 0);
      rdIndex, rdEnd, ndefs, setWh, resWh := [], 0, 0, 0, 0;
      id, wrId := seq(ID_BYTES, _ => 0), seq(ID_BYTES, _ => 0);
    }

    /** ram_append: refused, and nothing written, unless all of it fits. */
    method Append(off: nat, data: seq<Word>) returns (ok: bool)
      modifies wr
      ensures ok <==> off + |data| <= wr.Length
      ensures wr[..] == if ok then old(wr[..off]) + data + old(wr[off + |data|..]) else old(wr[..])
    {
      if off > wr.Length || wr.Length - off < |data| { return false; }
      forall k | 0 <= k < |data| { wr[off + k] := data[k]; }
      return true;
    }

    method Begin(staticId: seq<Byte>, scratchWords: nat) returns (ok: bool)
      requires Valid()
      modifies this`writing, this`w, this`wrId, this`abs
      ensures ok ==> W.Alike(w, W.Begin(wr.Length, 0, W.NO_REC, 0))
      ensures Valid() && ok == (!old(writing) && scratchWords >= MAX_DEFS + W.WBUF)
      ensures if ok then writing && abs == W.Abs(map[], None) && wrId == F.CopyId(old(wrId), staticId)
              else writing == old(writing) && abs == old(abs)
    {
      hide W.Refines, F.CopyId, OnShow, W.Begin, W.Alike;
      if writing || scratchWords < MAX_DEFS + W.WBUF { return false; }
      W.BeginRefines(wr.Length, 0, w.rec, w.dataOff);
      W.BeginAlike(wr.Length, 0, w.rec, w.dataOff);
      Starts(wr.Length, w.rec, w.dataOff);
      w := W.Begin(wr.Length, 0, w.rec, w.dataOff);
      writing, wrId, abs := true, F.CopyId(wrId, staticId), W.Abs(map[], None);
      return true;
    }

    static lemma Starts(cap: nat, rec: Rec, dataOff: nat)
      ensures var b := W.Begin(cap, 0, rec, dataOff); b.log == [] && b.rec == rec && b.cap == cap && b.first == 0
    {
    }

    /** geom_store_set_id: only the set being written takes it. */
    method SetId(staticId: seq<Byte>)
      requires Valid()
      modifies this`wrId
      ensures Valid() && wrId == if writing then F.CopyId(old(wrId), staticId) else old(wrId)
    {
      hide W.Refines, OnShow, F.CopyId;
      if writing { wrId := F.CopyId(wrId, staticId); }
    }

    /** geom_store_set_resolution: a set for another resolution closes. */
    method SetResolution(width: Word, height: Word)
      requires Valid() && width < 0x1_0000 && height < 0x1_0000
      modifies this`resWh, this`isOpen
      ensures Valid() && resWh == width * 0x1_0000 + height
      ensures isOpen == (old(isOpen) && F.Suits(setWh, resWh))
    {
      hide W.Refines, OnShow;
      resWh := width * 0x1_0000 + height;
      if isOpen && resWh != 0 && setWh != resWh { isOpen := false; }
    }

    // ---- geom_common.c over this backend ----

    /** geom_common_flush: one append of what is buffered. */
    method FlushBuf() returns (ok: bool)
      requires Synced()
      modifies this`w, wr
      ensures Synced() && (w, ok) == W.Flush(old(w))
    {
      if w.wbuf == [] { return true; }
      ok := Append(|w.log|, w.wbuf);
      if ok {
        assert wr[..|w.log| + |w.wbuf|] == w.log + w.wbuf;
        w := w.(log := w.log + w.wbuf, wbuf := []);
      }
    }

    method Chunk(piece: seq<Word>) returns (ok: bool)
      requires Synced() && |w.wbuf| + |piece| <= W.WBUF
      modifies this`w, wr
      ensures Synced() && (w, ok) == W.Chunk(old(w), piece)
    {
      hide W.Flush;
      w := w.(wbuf := w.wbuf + piece);
      if |w.wbuf| < W.WBUF { return true; }
      ok := FlushBuf();
      if !ok {
        RefusedFlush(old(w).(wbuf := old(w).wbuf + piece));
        w := w.(wbuf := []);
      }
    }

    static lemma RefusedFlush(w: W.Writer)
      ensures !W.Flush(w).1 ==> W.Flush(w).0 == w
    {
    }

    /** put: queues words, flushing the buffer whenever it fills. */
    method Put(data: seq<Word>) returns (ok: bool)
      requires Synced() && |w.wbuf| < W.WBUF
      modifies this`w, wr
      ensures Synced() && (w, ok) == W.Put(old(w), data) && |w.wbuf| < W.WBUF
      ensures w == old(w).(log := w.log, wbuf := w.wbuf)
    {
      hide W.Chunk;
      var i := 0;
      ghost var w0 := w;
      assert data[0..] == data;
      W.PutAppends(w, data);
      while i < |data|
        invariant 0 <= i <= |data| && Synced() && |w.wbuf| < W.WBUF
        invariant W.Put(w0, data) == W.Put(w, data[i..])
      {
        var n := if W.WBUF - |w.wbuf| > |data| - i then |data| - i else W.WBUF - |w.wbuf|;
        assert data[i..][..n] == data[i..i + n] && data[i..][n..] == data[i + n..];
        ok := Chunk(data[i..i + n]);
        i := i + n;
        if !ok { return false; }
      }
      return true;
    }

    method Drop()
      requires Synced()
      modifies this`w
      ensures Synced() && w == W.Drop(old(w))
    {
      w := w.(wbuf := [], dropped := w.dropped + 1);
    }

    /** finish_record: the trailer, a flush, and the index entry. */
    method FinishRecord(r: Rec) returns (ok: bool)
      requires Synced() && |w.wbuf| < W.WBUF && RecOk(r) && r.id < |w.index|
      modifies this`w, wr
      ensures Synced() && (w, ok) == W.Finish(old(w), r)
    {
      hide W.Put, W.Flush, Trailer;
      ok := Put(Trailer(r));
      if !ok {
        Drop();
        return;
      }
      FlushKeeps(w, Trailer(r), old(w));
      ok := FlushBuf();
      if !ok {
        Drop();
        return;
      }
      var trailerOff := 4 * (|w.log| - TRAILER);
      w := w.(ndefs := if w.index[r.id] == ABSENT then w.ndefs + 1 else w.ndefs, index := w.index[r.id := trailerOff]);
    }

    static lemma FlushKeeps(w: W.Writer, data: seq<Word>, w0: W.Writer)
      requires |w0.wbuf| < W.WBUF && W.Room(w0) && |data| == TRAILER && W.Put(w0, data) == (w, true)
      ensures W.Flush(w).0 == w.(log := W.Flush(w).0.log, wbuf := W.Flush(w).0.wbuf)
      ensures W.Flush(w).1 ==> |W.Flush(w).0.log| >= TRAILER
    {
      hide W.Put;
      W.PutAppends(w0, data);
    }

    method AddWhole(i: Item) returns (ok: bool)
      requires Synced() && |w.wbuf| < W.WBUF && RecOk(i.rec) && i.rec.id < |w.index|
      modifies this`w, wr
      ensures Synced() && (w, ok) == W.AddWhole(old(w), i)
    {
      hide W.Put, W.Finish;
      ok := Put(i.data);
      if !ok {
        Drop();
        return;
      }
      ok := FinishRecord(i.rec);
    }

    method PutVertex(v: Vertex) returns (ok: bool)
      requires Synced() && |w.wbuf| < W.WBUF
      modifies this`w, wr
      ensures Synced() && (w, ok) == W.PutVertex(old(w), v)
    {
      hide W.Put, W.Grow, Pair, ClampPx8;
      var x, y := ClampPx8(v.x8), ClampPx8(v.y8);
      w := w.(rec := W.Grow(w.rec, x, y));
      ok := Put([Pair(x, y)]);
      if ok { w := w.(rec := w.rec.(count := w.rec.count + 1)); } else { w := w.(failed := true); }
    }

    method AddVertexTo(v: Vertex) returns (ok: bool)
      requires Synced() && |w.wbuf| < W.WBUF
      modifies this`w, wr
      ensures Synced() && (w, ok) == W.AddVertexTo(old(w), v)
    {
      hide W.Mark, W.PutVertex;
      if v.start || w.rec.count == 0 {
        ok := PutBreak();
        if !ok { return; }
      }
      ok := PutVertex(v);
    }

    method PutBreak() returns (ok: bool)
      requires Synced() && |w.wbuf| < W.WBUF
      modifies this`w, wr
      ensures Synced() && (w, ok) == W.Mark(old(w)) && |w.wbuf| < W.WBUF
    {
      hide W.Put, Pair;
      ok := Put([Pair(BREAK, 0)]);
      if ok { w := w.(rec := w.rec.(count := w.rec.count + 1)); } else { w := w.(failed := true); }
    }

    method ClosePoly() returns (ok: bool)
      requires Synced() && W.Sound(w)
      modifies this`w, wr
      ensures Synced() && (w, ok) == W.Close(old(w))
    {
      hide W.Finish, W.Rounded;
      w := w.(active := false);
      if w.failed {
        Drop();
        return false;
      }
      RoundedOk(w.rec);
      w := w.(rec := W.Rounded(w.rec));
      ok := FinishRecord(w.rec);
    }

    static lemma RoundedOk(r: Rec)
      ensures RecOk(r) ==> RecOk(W.Rounded(r)) && W.Rounded(r).id == r.id
    {
    }

    /** The public calls, with their guards. */
    method Call(op: W.Op) returns (ok: bool)
      requires Synced() && W.Sound(w) && W.OpOk(op)
      modifies this`w, wr
      ensures Synced() && (w, ok) == W.Call(old(w), op)
    {
      hide W.AddWhole, W.AddVertexTo, W.Close, W.StartPoly, CircleItem, GroupItem;
      match op
      case AddCircle(i, cx, cy, r) =>
        if w.active || i >= MAX_DEFS { return false; }
        F.CircleOk(i, cx, cy, r);
        ok := AddWhole(CircleItem(i, cx, cy, r));
      case AddGroup(i, members) =>
        if w.active || i >= MAX_DEFS || |members| > GROUP_MAX { return false; }
        GroupOk(i, members);
        ok := AddWhole(GroupItem(i, members));
      case BeginPoly(i) =>
        if w.active || i >= MAX_DEFS { return false; }
        Started(w, i);
        w := W.StartPoly(w, i);
        return true;
      case AddVertex(v) =>
        if !w.active || w.failed { return false; }
        ok := AddVertexTo(v);
      case EndPoly =>
        if !w.active { return false; }
        ok := ClosePoly();
    }

    static lemma GroupOk(i: nat, members: seq<Word>)
      requires i < MAX_DEFS && |members| <= GROUP_MAX
      ensures RecOk(GroupItem(i, members).rec) && GroupItem(i, members).rec.id == i
    {
    }

    static lemma Started(w: W.Writer, i: nat)
      ensures W.StartPoly(w, i) == w.(rec := W.StartPoly(w, i).rec, dataOff := W.StartPoly(w, i).dataOff, active := true, failed := false)
    {
    }

    /** One call of the decoder. Each flush appends to the spare buffer; the set on show is untouched. */
    method Do(op: W.Op) returns (ok: bool)
      requires Valid() && writing && W.OpOk(op)
      modifies this`w, this`abs, wr
      ensures Valid() && abs == W.AbsStep(old(abs), op, ok) && (w, ok) == W.Call(old(w), op)
    {
      hide W.Refines, W.Call, W.AbsStep, OnShow, W.Sound;
      ghost var shownBuffer := rd[..];
      W.ApplyRefines(w, abs, op);
      ok := Call(op);
      abs := W.AbsStep(abs, op, ok);
      Bounds(w, abs);
      assert rd[..] == shownBuffer;
    }

    static lemma Bounds(w: W.Writer, a: W.Abs)
      requires W.Refines(w, a)
      ensures |w.log| <= w.cap && RecOk(w.rec) && w.rec.id < MAX_DEFS
    {
    }

    /** The buffers trade places exactly when the set has an id and no polygon is open; otherwise the
        set on show stays, and the new one is forgotten. */
    method Commit() returns (ok: bool)
      requires Valid()
      modifies this`writing, this`w, this`rd, this`wr, this`rdIndex, this`rdEnd, this`ndefs, this`id, this`setWh,
               this`present, this`isOpen, this`kept, this`shown
      ensures Valid() && !writing
      ensures ok == (old(writing) && old(wrId)[0] != 0 && old(abs).cur == None)
      ensures if ok then present && isOpen && shown == old(abs) && id == wrId && setWh == resWh && rd == old(wr) && wr == old(rd)
              else shown == old(shown) && present == old(present) && isOpen == old(isOpen) && id == old(id)
                   && setWh == old(setWh) && rd == old(rd) && wr == old(wr)
    {
      hide W.Refines, OnShow;
      if !writing { return false; }
      F.ClosedIsFlushed(w, abs);
      F.ActiveIffOpen(w, abs);
      if wrId[0] == 0 || w.active || !W.Flush(w).1 {
        EndWrite();
        return false;
      }
      Swap();
      return true;
    }

    method Swap()
      requires Valid() && writing && !w.active && w.wbuf == []
      modifies this`writing, this`w, this`rd, this`wr, this`rdIndex, this`rdEnd, this`ndefs, this`id, this`setWh,
               this`present, this`isOpen, this`kept, this`shown
      ensures Valid() && !writing && present && isOpen
      ensures shown == old(abs) && id == wrId && setWh == resWh && rd == old(wr) && wr == old(rd)
    {
      hide W.Refines, OnShow, Writing;
      Showing();
      ShowWritten();
      EndWrite();
      rd, wr := wr, rd;
    }

    /** The read-side fields of the set just written. */
    method ShowWritten()
      modifies this`rdIndex, this`rdEnd, this`ndefs, this`id, this`setWh, this`present, this`isOpen, this`kept, this`shown
      ensures kept == w && shown == abs && rdIndex == w.index && rdEnd == 4 * |w.log| && ndefs == w.ndefs
      ensures setWh == resWh && id == wrId && present && isOpen
    {
      kept, shown := w, abs;
      rdIndex, rdEnd, ndefs := w.index, 4 * |w.log|, w.ndefs;
      setWh, id, present, isOpen := resWh, wrId, true, true;
    }

    lemma Showing()
      requires Valid() && writing && !w.active
      ensures OnShow(wr[..], w.index, 4 * |w.log|, w.ndefs, w, abs)
    {
      assert wr[..][..|w.log|] == wr[..|w.log|];
    }

    method EndWrite()
      modifies this`writing, this`w
      ensures !writing && w == old(w).(active := false, wbuf := [])
    {
      writing, w := false, w.(active := false, wbuf := []);
    }

    /** The new region's contents are simply forgotten. */
    method Abort()
      requires Valid()
      modifies this`writing, this`w
      ensures Valid() && !writing
    {
      hide W.Refines, OnShow;
      if writing { EndWrite(); }
    }

    method Open(staticId: seq<Byte>) returns (ok: bool)
      requires Valid()
      modifies this`isOpen
      ensures Valid() && ok == isOpen
      ensures ok <==> present && F.IdIs(id, staticId) && F.Suits(setWh, resWh)
    {
      hide W.Refines, OnShow;
      isOpen := present && F.IdIs(id, staticId) && F.Suits(setWh, resWh);
      return isOpen;
    }

    /** geom_store_get: the last record finished for the id in the set on show, or nothing. */
    method GetRecord(i: nat) returns (r: Option<Item>)
      requires Valid()
      ensures r == if isOpen then F.Recorded(shown.defs, i) else None
    {
      hide W.Refines, OnShow, Get, F.Recorded;
      if !isOpen { return None; }
      ShowsLast(rd[..], rdIndex, rdEnd, ndefs, kept, shown, i);
      return Get(rd[..], rdIndex, 0, rdEnd, i);
    }

    /** A set replaced from beginning to end; the id may arrive late. While it streams in, the set on show keeps answering;
        afterwards the store shows either that same set or exactly the records that were finished. */
    method Transfer(staticId: seq<Byte>, ops: seq<W.Op>, late: Option<seq<Byte>>) returns (ok: bool)
      requires Valid() && !writing && forall op :: op in ops ==> W.OpOk(op)
      modifies this, wr
      ensures Valid() && !writing && wr.Length == old(wr.Length)
      ensures ok <==> F.IdField(old(wrId), staticId, late)[0] != 0 && W.Written(old(wr.Length), 0, ops).1.cur == None
      ensures if ok then isOpen && shown == W.Written(old(wr.Length), 0, ops).1 && id == F.IdField(old(wrId), staticId, late) && setWh == resWh
              else shown == old(shown) && isOpen == old(isOpen) && present == old(present) && id == old(id)
    {
      hide W.Refines, OnShow, W.AbsStep, F.CopyId, W.Alike, W.Call, W.Begin;
      var began := Begin(staticId, MAX_DEFS + W.WBUF);
      for n := 0 to |ops|
        invariant Valid() && writing && wrId == F.CopyId(old(wrId), staticId) && wr == old(wr)
        invariant shown == old(shown) && present == old(present) && isOpen == old(isOpen) && id == old(id)
        invariant W.Alike(w, W.Written(wr.Length, 0, ops[..n]).0) && abs == W.Written(wr.Length, 0, ops[..n]).1
      {
        W.WrittenNext(wr.Length, 0, ops, n, w, abs);
        var finished := Do(ops[n]);
      }
      assert ops[..|ops|] == ops;
      if late.Some? { SetId(late.value); }
      ok := Commit();
    }
  }
}
