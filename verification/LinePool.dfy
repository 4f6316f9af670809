/** The line pool object (linepool.c): the byte ring and the line table are arrays the methods write
    in place. Each method is proved against the functions of RingLayout; LineSink is the renderer's
    use of them (kiosk_loop.c), for which the byte-level result is stated outright. */
module LinePool {
  import opened Prelude
  import opened RingLayout

  class LinePool {
    const pool: array<Byte>
    const line: array<Ref>
    var head: nat
    var tail: nat
    var live: int
    var allocFail: nat
    var bytesFrame: nat

    ghost predicate Valid()
      reads this, line
    {
      && line.Length > 0 && pool.Length > 0
      && forall i :: 0 <= i < line.Length && line[i].len == 0 ==> line[i] == Ref(0, 0, true)
    }

    ghost function Ring(): Ring
      reads this, line
    {
      RingLayout.Ring(pool.Length, head, tail, live, line[..])
    }

    constructor (mem: array<Byte>, lines: nat)
      requires mem.Length > 0 && lines > 0
      ensures Valid() && pool == mem && line.Length == lines && fresh(line)
      ensures Ring() == RingLayout.Init(mem.Length, lines) && Inv(Ring(), 0, [])
    {
      pool := mem;
      line := new Ref[lines](_ => Ref(0, 0, true));
      head, tail, live, allocFail, bytesFrame := 0, 0, 0, 0, 0;
      new;
      assert line[..] == seq(lines, _ => Ref(0, 0, true));
      InitInv(mem.Length, lines);
    }

    method FrameBegin()
      modifies this`bytesFrame
      ensures bytesFrame == 0
    {
      bytesFrame := 0;
    }

    /** Reserves maxLen contiguous bytes. A refusal is counted. */
    method Alloc(maxLen: nat) returns (off: Option<nat>)
      requires Valid()
      modifies this`head, this`tail, this`live, this`allocFail
      ensures Valid() && (Ring(), off) == RingLayout.Alloc(old(Ring()), maxLen)
      ensures forall c: nat, q: seq<nat> :: Inv(old(Ring()), c, q) ==> Granted(old(Ring()), q, maxLen, off)
      ensures allocFail == old(allocFail) + (if off == None then 1 else 0)
    {
      GrantedAll(Ring(), maxLen);
      var m := if maxLen == 0 then 1 else maxLen;
      if live == 0 { head, tail := 0, 0; }
      if m >= pool.Length - live {
        allocFail := allocFail + 1;
        return None;
      }
      if head >= tail {
        if head + m <= pool.Length { return Some(head); }
        if m >= tail {
          allocFail := allocFail + 1;
          return None;
        }
        live := live + pool.Length - head;
        head := 0;
        return Some(0);
      }
      if head + m >= tail {
        allocFail := allocFail + 1;
        return None;
      }
      return Some(head);
    }

    method OldestLiveOff() returns (best: nat)
      requires Valid()
      ensures best == Farthest(Ring(), line.Length).0
    {
      best := head;
      var bestD := 0;
      for y := 0 to line.Length
        invariant (best, bestD) == Farthest(Ring(), y)
      {
        var l := line[y];
        if l.len != 0 {
          var d := Dist(pool.Length, l.off, head);
          if d > bestD { bestD, best := d, l.off; }
        }
      }
    }

    method NextLiveOff(y: nat) returns (next: Option<nat>)
      requires Valid()
      ensures next == NextLive(line[..], y, 1)
    {
      for i := 1 to line.Length + 1
        invariant NextLive(line[..], y, 1) == NextLive(line[..], y, i)
      {
        var k := (y + i) % line.Length;
        if line[k].len != 0 { return Some(line[k].off); }
      }
      return None;
    }

    /** Releases the bytes of the record `gone` that line y held before its new one. */
    method FreeOld(y: nat, gone: Ref)
      requires Valid()
      modifies this`tail, this`live
      ensures Valid() && Ring() == RingLayout.FreeOld(old(Ring()), y, gone)
    {
      if gone.len == 0 { return; }
      if gone.off == tail {
        var t := gone.off + gone.len;
        var next := NextLiveOff(y);
        if next == None || next.value < t { t := if next == None then head else next.value; }
        tail := t;
      } else {
        tail := OldestLiveOff();
      }
      live := Dist(pool.Length, tail, head);
    }

    method Commit(y: nat, off: nat, len: nat)
      requires Valid()
      modifies this`head, this`tail, this`live, this`bytesFrame, line
      ensures Valid() && Ring() == RingLayout.Commit(old(Ring()), y, off, len)
    {
      if y >= line.Length { return; }
      if len == 0 {
        CommitDup(y);
        return;
      }
      var gone := line[y];
      line[y] := Ref(off, len, false);
      head := off + len;
      live := Dist(pool.Length, tail, head);
      bytesFrame := bytesFrame + len;
      assert line[..] == old(line[..])[y := Ref(off, len, false)];
      FreeOld(y, gone);
    }

    method CommitDup(y: nat)
      requires Valid()
      modifies this`tail, this`live, line
      ensures Valid() && Ring() == RingLayout.CommitDup(old(Ring()), y)
    {
      if y >= line.Length { return; }
      var gone := line[y];
      line[y] := Ref(0, 0, true);
      assert line[..] == old(line[..])[y := Ref(0, 0, true)];
      FreeOld(y, gone);
    }

    method Fill(off: nat, bytes: seq<Byte>)
      requires off + |bytes| <= pool.Length
      modifies pool
      ensures pool[..] == Splice(old(pool[..]), off, bytes)
    {
      for i := 0 to |bytes|
        invariant forall k :: 0 <= k < pool.Length ==>
                    pool[k] == if off <= k < off + i then bytes[k - off] else old(pool[k])
      {
        pool[off + i] := bytes[i];
      }
      SpliceAt(old(pool[..]), off, bytes, pool[..]);
    }

    /** One rendered line: reserve its bytes, copy them, commit; a duplicate when there is nothing
        to store or no room. Line y then shows exactly `bytes`, or repeats its predecessor, and no
        other line's bytes or record change. */
    method LineSink(y: nat, bytes: seq<Byte>, ghost q: seq<nat>) returns (stored: bool, ghost q': seq<nat>)
      requires Valid() && y < line.Length && Inv(Ring(), y, q)
      modifies this, line, pool
      ensures Valid() && Inv(Ring(), NextLine(line.Length, y), q')
      ensures OthersKept(old(line[..]), old(pool[..]), line[..], pool[..], y)
      ensures if stored then Shown(pool[..], line[y]) == bytes && !line[y].dup else line[y] == Ref(0, 0, true)
      ensures stored <==> bytes != [] && HasPlace(old(Ring()), q, |bytes|)
    {
      hide RingLayout.Inv;
      if bytes == [] {
        q' := Repeat(y, q);
        return false, q';
      }
      AllocInv(Ring(), y, q, |bytes|);
      GrantedAll(Ring(), |bytes|);
      var p := Alloc(|bytes|);
      if p == None {
        q' := Repeat(y, q);
        return false, q';
      }
      q' := Store(y, p.value, bytes, q);
      return true, q';
    }

    method Store(y: nat, off: nat, bytes: seq<Byte>, ghost q: seq<nat>) returns (ghost q': seq<nat>)
      requires Valid() && Inv(Ring(), y, q) && bytes != [] && y < line.Length && off + |bytes| <= pool.Length
      requires off == head && Room(pool.Length, head, tail, |bytes|) && Clear(line[..], off, |bytes|)
      modifies this, line, pool
      ensures Valid() && Inv(Ring(), NextLine(line.Length, y), q')
      ensures OthersKept(old(line[..]), old(pool[..]), line[..], pool[..], y)
      ensures Shown(pool[..], line[y]) == bytes && !line[y].dup
      ensures allocFail == old(allocFail)
    {
      hide RingLayout.Inv;
      ghost var r, mem := Ring(), pool[..];
      Fill(off, bytes);
      assert Ring() == r;
      Commit(y, off, |bytes|);
      q' := Survivors(y, q) + [y];
      Stored(r, y, q, bytes, mem);
    }

    method Repeat(y: nat, ghost q: seq<nat>) returns (ghost q': seq<nat>)
      requires Valid() && y < line.Length && Inv(Ring(), y, q)
      modifies this`tail, this`live, line
      ensures Valid() && Inv(Ring(), NextLine(line.Length, y), q')
      ensures line[..] == old(line[..])[y := Ref(0, 0, true)]
    {
      hide RingLayout.Inv;
      CommitDupInv(Ring(), y, q);
      CommitLines(Ring(), y, 0, 0);
      CommitDup(y);
      q' := Survivors(y, q);
    }
  }

  /** The bytes a line record shows; empty for a line that repeats its predecessor. */
  ghost function Shown(mem: seq<Byte>, l: Ref): seq<Byte> {
    if End(l) <= |mem| then mem[l.off..End(l)] else []
  }

  /** No line but y changed its record or its bytes. */
  ghost predicate OthersKept(line: seq<Ref>, mem: seq<Byte>, line': seq<Ref>, mem': seq<Byte>, y: nat) {
    && |line'| == |line|
    && forall i :: 0 <= i < |line| && i != y ==> line'[i] == line[i] && Shown(mem', line[i]) == Shown(mem, line[i])
  }

  ghost function Splice(mem: seq<Byte>, off: nat, bytes: seq<Byte>): seq<Byte>
    requires off + |bytes| <= |mem|
  {
    mem[..off] + bytes + mem[off + |bytes|..]
  }

  lemma SpliceAt(mem: seq<Byte>, off: nat, bytes: seq<Byte>, mem': seq<Byte>)
    requires off + |bytes| <= |mem| == |mem'|
    requires forall k :: 0 <= k < |mem| ==> mem'[k] == if off <= k < off + |bytes| then bytes[k - off] else mem[k]
    ensures mem' == Splice(mem, off, bytes)
  {
  }

  /** Writing [off, off+n) leaves the bytes of every line clear of it alone. */
  lemma {:induction false} SpliceShown(line: seq<Ref>, off: nat, bytes: seq<Byte>, mem: seq<Byte>)
    requires Clear(line, off, |bytes|) && off + |bytes| <= |mem|
    ensures forall i :: 0 <= i < |line| ==> Shown(Splice(mem, off, bytes), line[i]) == Shown(mem, line[i])
    ensures Shown(Splice(mem, off, bytes), Ref(off, |bytes|, false)) == bytes
  {
    var mem' := Splice(mem, off, bytes);
    forall i | 0 <= i < |line|
      ensures Shown(mem', line[i]) == Shown(mem, line[i])
    {
      assert Disjoint(off, |bytes|, line[i].off, line[i].len);
      assert forall k :: 0 <= k < |mem| && !(off <= k < off + |bytes|) ==> mem'[k] == mem[k];
    }
  }

  lemma {:induction false} Stored(r: Ring, y: nat, q: seq<nat>, bytes: seq<Byte>, mem: seq<Byte>)
    requires y < |r.line| && Inv(r, y, q) && bytes != [] && |mem| == r.size
    requires Room(r.size, r.head, r.tail, |bytes|) && r.head + |bytes| <= r.size && Clear(r.line, r.head, |bytes|)
    ensures var r' := RingLayout.Commit(r, y, r.head, |bytes|);
            var mem' := Splice(mem, r.head, bytes);
            && Inv(r', NextLine(|r.line|, y), Survivors(y, q) + [y])
            && r'.line == r.line[y := Ref(r.head, |bytes|, false)]
            && OthersKept(r.line, mem, r'.line, mem', y)
            && Shown(mem', r'.line[y]) == bytes
  {
    hide RingLayout.Inv;
    SpliceShown(r.line, r.head, bytes, mem);
    CommitInv(r, y, q, |bytes|);
    CommitLines(r, y, r.head, |bytes|);
  }
}
