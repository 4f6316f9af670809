/** The line pool's ring arithmetic (linepool.c) as functions on values, and the layout invariant
    that a renderer committing lines 0, 1, .., lines-1, 0, .. keeps. */
module RingLayout {
  import opened Prelude

  /** One entry of the published line table. */
  datatype Ref = Ref(off: nat, len: nat, dup: bool)

  datatype Ring = Ring(size: nat, head: nat, tail: nat, live: int, line: seq<Ref>)

  function Dist(size: nat, from: nat, to: nat): int {
    if to >= from then to - from else to + size - from
  }

  function Init(size: nat, lines: nat): Ring {
    Ring(size, 0, 0, 0, seq(lines, _ => Ref(0, 0, true)))
  }

  // ---- linepool_alloc ----

  /** The ring after an allocation request and the offset granted, if any. */
  function Alloc(r: Ring, maxLen: nat): (Ring, Option<nat>) {
    var m := if maxLen == 0 then 1 else maxLen;
    var r0 := if r.live == 0 then r.(head := 0, tail := 0) else r;
    if m >= r0.size - r0.live then (r0, None)
    else if r0.head >= r0.tail then
      if r0.head + m <= r0.size then (r0, Some(r0.head))
      else if m >= r0.tail then (r0, None)
      else (r0.(live := r0.live + r0.size - r0.head, head := 0), Some(0))
    else if r0.head + m >= r0.tail then (r0, None)
    else (r0, Some(r0.head))
  }

  // ---- linepool_commit and linepool_commit_dup ----

  /** Offset of the first live line met at y+i, y+i+1, .., y+lines (cyclically). */
  function NextLive(line: seq<Ref>, y: nat, i: nat): Option<nat>
    requires |line| > 0
    decreases |line| + 1 - i
  {
    if i > |line| then None
    else
      var k := (y + i) % |line|;
      if line[k].len != 0 then Some(line[k].off) else NextLive(line, y, i + 1)
  }

  /** The fallback of a frame abandoned part-way: the live line farthest behind head,
      among lines 0..n. */
  function Farthest(r: Ring, n: nat): (best: (nat, int))
    requires n <= |r.line|
  {
    if n == 0 then (r.head, 0)
    else
      var b := Farthest(r, n - 1);
      var l := r.line[n - 1];
      var d := Dist(r.size, l.off, r.head);
      if l.len != 0 && d > b.1 then (l.off, d) else b
  }

  function NewTail(r: Ring, y: nat, gone: Ref): nat
    requires |r.line| > 0
  {
    if gone.off == r.tail then
      var t := gone.off + gone.len;
      match NextLive(r.line, y, 1)
      case None => r.head
      case Some(next) => if next < t then next else t
    else Farthest(r, |r.line|).0
  }

  function FreeOld(r: Ring, y: nat, gone: Ref): Ring
    requires |r.line| > 0
  {
    if gone.len == 0 then r
    else
      var t := NewTail(r, y, gone);
      r.(tail := t, live := Dist(r.size, t, r.head))
  }

  function CommitDup(r: Ring, y: nat): Ring
    requires |r.line| > 0
  {
    if y >= |r.line| then r
    else FreeOld(r.(line := r.line[y := Ref(0, 0, true)]), y, r.line[y])
  }

  function Commit(r: Ring, y: nat, off: nat, len: nat): Ring
    requires |r.line| > 0
  {
    if y >= |r.line| then r
    else if len == 0 then CommitDup(r, y)
    else
      var r1 := r.(line := r.line[y := Ref(off, len, false)], head := off + len,
                   live := Dist(r.size, r.tail, off + len));
      FreeOld(r1, y, r.line[y])
  }

  // ---- the layout invariant ----

  /** Place of line i in commit order when c is the next line to be committed: 0 for c itself (the
      oldest), lines-1 for the line just committed. */
  function Rank(n: nat, c: nat, i: nat): int {
    if i >= c then i - c else i + n - c
  }

  function End(l: Ref): (e: nat)
    ensures l.off <= e
  {
    l.off + l.len
  }

  predicate Disjoint(a: nat, alen: nat, b: nat, blen: nat) {
    a + alen <= b || b + blen <= a || alen == 0 || blen == 0
  }

  ghost predicate IdsOf(line: seq<Ref>, q: seq<nat>) {
    forall k :: 0 <= k < |q| ==> q[k] < |line| && line[q[k]].len > 0
  }

  /** q lists the live lines, oldest first, when c is the next line to commit. */
  ghost predicate Order(line: seq<Ref>, c: nat, q: seq<nat>) {
    && IdsOf(line, q)
    && (forall i :: 0 <= i < |line| && line[i].len > 0 ==> i in q)
    && (forall k, l :: 0 <= k < l < |q| ==> Rank(|line|, c, q[k]) < Rank(|line|, c, q[l]))
  }

  ghost function Refs(line: seq<Ref>, q: seq<nat>): (s: seq<Ref>)
    requires IdsOf(line, q)
    ensures |s| == |q|
  {
    seq(|q|, k requires 0 <= k < |q| => line[q[k]])
  }

  /** The allocations s lie between tail and head, oldest first, without overlap, each starting
      where its predecessor ended or at offset 0 after a wrap; head meets tail only when there are
      none. */
  ghost predicate Layout(size: nat, head: nat, tail: nat, live: int, s: seq<Ref>) {
    && head <= size && tail <= size && live == Dist(size, tail, head)
    && (s == [] ==> head == tail)
    && (s != [] ==> head != tail && tail == s[0].off && tail < size && (head == End(s[|s| - 1]) || head == 0))
    && (forall k :: 0 <= k < |s| ==>
          s[k].len > 0 && End(s[k]) <= size && Dist(size, tail, s[k].off) + s[k].len <= live)
    && (forall k, l :: 0 <= k < l < |s| ==> Dist(size, tail, s[k].off) + s[k].len <= Dist(size, tail, s[l].off))
    && (|s| > 1 ==> Follows(s[0], s[1]))
    && (forall k :: 0 <= k < |s| - 1 ==> Follows(s[k], s[k + 1]))
  }

  predicate Follows(a: Ref, b: Ref) { b.off == End(a) || b.off == 0 }

  ghost predicate Inv(r: Ring, c: nat, q: seq<nat>) {
    && c < |r.line| && r.size > 0
    && Order(r.line, c, q)
    && Layout(r.size, r.head, r.tail, r.live, Refs(r.line, q))
  }

  function NextLine(n: nat, c: nat): nat { if c + 1 == n then 0 else c + 1 }

  /** The live lines left once the old record of line c is gone. */
  function Survivors(c: nat, q: seq<nat>): seq<nat> {
    if q != [] && q[0] == c then q[1..] else q
  }

  /** head may advance by up to m without meeting tail or the end of the pool. */
  predicate Room(size: nat, head: nat, tail: nat, m: nat) {
    if head >= tail then head + m <= size else head + m < tail
  }

  lemma InitInv(size: nat, lines: nat)
    requires size > 0 && lines > 0
    ensures Inv(Init(size, lines), 0, [])
  {
  }

  // ---- allocations in the ring, whatever lines they belong to ----

  lemma {:induction false} LayoutPush(size: nat, head: nat, tail: nat, live: int, s: seq<Ref>, l: Ref)
    requires Layout(size, head, tail, live, s)
    requires l.off == head && l.len > 0 && Room(size, head, tail, l.len)
    ensures Layout(size, End(l), tail, live + l.len, s + [l])
  {
    var s' := s + [l];
    forall k | 0 <= k < |s'| - 1
      ensures Follows(s'[k], s'[k + 1])
    {
      if k < |s| - 1 { assert Follows(s[k], s[k + 1]); }
    }
  }

  lemma DistShift(size: nat, tail: nat, t: nat, o: nat)
    requires tail <= size && t <= size && o <= size
    requires t == o || Dist(size, tail, t) < Dist(size, tail, o)
    ensures Dist(size, t, o) == Dist(size, tail, o) - Dist(size, tail, t)
  {
  }

  lemma {:induction false} LayoutPop(size: nat, head: nat, tail: nat, live: int, s: seq<Ref>)
    requires Layout(size, head, tail, live, s) && s != []
    ensures var t := if |s| == 1 then head else s[1].off;
            Layout(size, head, t, Dist(size, t, head), s[1..])
  {
    var s' := s[1..];
    if |s| > 1 {
      var t := s[1].off;
      assert Dist(size, tail, t) + s[1].len <= live;
      DistShift(size, tail, t, head);
      PopShift(size, head, tail, live, s);
      PopOrdered(size, tail, t, s);
      assert s'[|s'| - 1] == s[|s| - 1];
      forall k | 0 <= k < |s'|
        ensures s'[k].len > 0 && End(s'[k]) <= size && Dist(size, t, s'[k].off) + s'[k].len <= Dist(size, t, head)
      {
        assert s[k + 1].len > 0;
      }
      forall k | 0 <= k < |s'| - 1
        ensures Follows(s'[k], s'[k + 1])
      {
        assert Follows(s[k + 1], s[k + 2]);
      }
    } else {
      assert s' == [];
    }
  }

  /** Seen from the second record, every later one is nearer by the same distance. */
  lemma {:induction false} PopShift(size: nat, head: nat, tail: nat, live: int, s: seq<Ref>)
    requires Layout(size, head, tail, live, s) && |s| > 1
    ensures forall k :: 1 <= k < |s| ==> Dist(size, s[1].off, s[k].off) == Dist(size, tail, s[k].off) - Dist(size, tail, s[1].off)
  {
    hide Follows;
    forall k | 1 <= k < |s|
      ensures Dist(size, s[1].off, s[k].off) == Dist(size, tail, s[k].off) - Dist(size, tail, s[1].off)
    {
      if k > 1 { assert Dist(size, tail, s[1].off) + s[1].len <= Dist(size, tail, s[k].off); }
      DistShift(size, tail, s[1].off, s[k].off);
    }
  }

  lemma {:induction false} PopOrdered(size: nat, tail: nat, t: nat, s: seq<Ref>)
    requires |s| > 1
    requires forall k :: 1 <= k < |s| ==> Dist(size, t, s[k].off) == Dist(size, tail, s[k].off) - Dist(size, tail, t)
    requires forall k, l :: 0 <= k < l < |s| ==> Dist(size, tail, s[k].off) + s[k].len <= Dist(size, tail, s[l].off)
    ensures forall k, l :: 0 <= k < l < |s[1..]| ==>
              Dist(size, t, s[1..][k].off) + s[1..][k].len <= Dist(size, t, s[1..][l].off)
  {
    forall k, l | 0 <= k < l < |s[1..]|
      ensures Dist(size, t, s[1..][k].off) + s[1..][k].len <= Dist(size, t, s[1..][l].off)
    {
      assert Dist(size, tail, s[k + 1].off) + s[k + 1].len <= Dist(size, tail, s[l + 1].off);
    }
  }

  /** A granted range avoids every allocation in the ring. */
  lemma {:induction false} LayoutRoom(size: nat, head: nat, tail: nat, live: int, s: seq<Ref>, m: nat, k: nat)
    requires Layout(size, head, tail, live, s) && Room(size, head, tail, m) && k < |s|
    ensures Disjoint(head, m, s[k].off, s[k].len)
  {
  }

  lemma {:induction false} LayoutDisjoint(size: nat, head: nat, tail: nat, live: int, s: seq<Ref>, k: nat, l: nat)
    requires Layout(size, head, tail, live, s) && k < l < |s|
    ensures Disjoint(s[k].off, s[k].len, s[l].off, s[l].len)
  {
  }

  // ---- the line table in commit order ----

  lemma RankStep(n: nat, c: nat, i: nat)
    requires c < n && i < n
    ensures Rank(n, NextLine(n, c), i) == if i == c then n - 1 else Rank(n, c, i) - 1
  {
  }

  lemma {:induction false} OldestFirst(line: seq<Ref>, c: nat, q: seq<nat>)
    requires Order(line, c, q) && c < |line|
    ensures line[c].len > 0 <==> q != [] && q[0] == c
    ensures forall k :: 0 < k < |q| ==> q[k] != c
  {
    if line[c].len > 0 {
      var k :| 0 <= k < |q| && q[k] == c;
      if k > 0 { assert Rank(|line|, c, q[0]) < Rank(|line|, c, q[k]); }
    }
    forall k | 0 < k < |q|
      ensures q[k] != c
    {
      assert Rank(|line|, c, q[0]) < Rank(|line|, c, q[k]);
    }
  }

  lemma {:induction false} OrderDrop(line: seq<Ref>, c: nat, q: seq<nat>, dead: Ref)
    requires Order(line, c, q) && c < |line| && dead.len == 0
    ensures Order(line[c := dead], NextLine(|line|, c), Survivors(c, q))
    ensures Refs(line[c := dead], Survivors(c, q))
            == if line[c].len > 0 then Refs(line, q)[1..] else Refs(line, q)
  {
    OldestFirst(line, c, q);
    if line[c].len > 0 {
      OrderTail(line, c, q);
      OrderForget(line, c, q[1..], dead);
      assert Refs(line[c := dead], q[1..]) == Refs(line, q)[1..];
    } else {
      OrderForget(line, c, q, dead);
      assert Refs(line[c := dead], q) == Refs(line, q);
    }
  }

  /** Order, except that line c may be live without being listed. */
  ghost predicate OrderBut(line: seq<Ref>, c: nat, q: seq<nat>) {
    && IdsOf(line, q)
    && (forall i :: 0 <= i < |line| && i != c && line[i].len > 0 ==> i in q)
    && (forall k, l :: 0 <= k < l < |q| ==> Rank(|line|, c, q[k]) < Rank(|line|, c, q[l]))
    && (forall k :: 0 <= k < |q| ==> q[k] != c)
  }

  lemma {:induction false} OrderTail(line: seq<Ref>, c: nat, q: seq<nat>)
    requires Order(line, c, q) && c < |line| && q != [] && q[0] == c
    requires forall k :: 0 < k < |q| ==> q[k] != c
    ensures OrderBut(line, c, q[1..])
  {
    forall i | 0 <= i < |line| && i != c && line[i].len > 0
      ensures i in q[1..]
    {
      var k :| 0 <= k < |q| && q[k] == i;
      assert q[1..][k - 1] == i;
    }
    forall k, l | 0 <= k < l < |q[1..]|
      ensures Rank(|line|, c, q[1..][k]) < Rank(|line|, c, q[1..][l])
    {
      assert Rank(|line|, c, q[k + 1]) < Rank(|line|, c, q[l + 1]);
    }
  }

  lemma {:induction false} OrderForget(line: seq<Ref>, c: nat, s: seq<nat>, dead: Ref)
    requires OrderBut(line, c, s) && c < |line| && dead.len == 0
    ensures Order(line[c := dead], NextLine(|line|, c), s)
  {
    forall k, m | 0 <= k < m < |s|
      ensures Rank(|line|, NextLine(|line|, c), s[k]) < Rank(|line|, NextLine(|line|, c), s[m])
    {
      assert Rank(|line|, c, s[k]) < Rank(|line|, c, s[m]);
      RankStep(|line|, c, s[k]);
      RankStep(|line|, c, s[m]);
    }
  }

  lemma {:induction false} OrderPublish(line: seq<Ref>, c: nat, s: seq<nat>, l: Ref)
    requires c < |line| && Order(line, NextLine(|line|, c), s) && line[c].len == 0 && l.len > 0
    ensures Order(line[c := l], NextLine(|line|, c), s + [c])
    ensures Refs(line[c := l], s + [c]) == Refs(line, s) + [l]
  {
    var q, line' := s + [c], line[c := l];
    assert q[|s|] == c;
    forall i | 0 <= i < |line'| && line'[i].len > 0
      ensures i in q
    {
      if i != c {
        var k :| 0 <= k < |s| && s[k] == i;
        assert q[k] == i;
      }
    }
    forall k, m | 0 <= k < m < |q|
      ensures Rank(|line|, NextLine(|line|, c), q[k]) < Rank(|line|, NextLine(|line|, c), q[m])
    {
      if m == |s| {
        RankStep(|line|, c, c);
        RankStep(|line|, c, s[k]);
        assert s[k] != c;
        assert Rank(|line|, c, s[k]) < |line|;
      } else {
        assert Rank(|line|, NextLine(|line|, c), s[k]) < Rank(|line|, NextLine(|line|, c), s[m]);
      }
    }
  }

  /** The search after line y finds the oldest live line, whichever line that is. */
  lemma {:induction false} NextLiveIsOldest(line: seq<Ref>, y: nat, q: seq<nat>, i: nat)
    requires y < |line| && 1 <= i <= |line| + 1
    requires Order(line, NextLine(|line|, y), q)
    requires q != [] ==> Rank(|line|, NextLine(|line|, y), q[0]) >= i - 1
    ensures NextLive(line, y, i) == if q == [] then None else Some(line[q[0]].off)
    decreases |line| + 1 - i
  {
    var n, c := |line|, NextLine(|line|, y);
    if i <= n {
      var k := Cyclic(n, y, i);
      if line[k].len != 0 {
        OldestRank(line, c, q, k);
        RankIsPlace(n, c, q[0], k);
      } else {
        if q != [] { RankIsPlace(n, c, q[0], k); }
        NextLiveIsOldest(line, y, q, i + 1);
      }
    } else if q != [] {
      RankBelow(n, c, q[0]);
    }
  }

  lemma RankBelow(n: nat, c: nat, i: nat)
    requires c < n && i < n
    ensures 0 <= Rank(n, c, i) < n
  {
  }

  lemma {:induction false} OldestRank(line: seq<Ref>, c: nat, q: seq<nat>, k: nat)
    requires Order(line, c, q) && k < |line| && line[k].len > 0
    ensures q != [] && Rank(|line|, c, q[0]) <= Rank(|line|, c, k)
  {
    var j :| 0 <= j < |q| && q[j] == k;
    if 0 < j { assert Rank(|line|, c, q[0]) < Rank(|line|, c, q[j]); }
  }

  lemma RankIsPlace(n: nat, c: nat, a: nat, b: nat)
    requires a < n && b < n && c < n
    ensures Rank(n, c, a) == Rank(n, c, b) <==> a == b
  {
  }

  lemma Cyclic(n: nat, y: nat, i: nat) returns (k: nat)
    requires y < n && 1 <= i <= n
    ensures k == (y + i) % n && k < n && Rank(n, NextLine(n, y), k) == i - 1
  {
    k := (y + i) % n;
    assert k == if y + i < n then y + i else y + i - n;
  }

  // ---- the operations keep the layout ----

  lemma {:induction false} AllocLayout(r: Ring, s: seq<Ref>, m: nat)
    requires Layout(r.size, r.head, r.tail, r.live, s) && r.size > 0
    ensures var r' := Alloc(r, m).0;
            && Layout(r'.size, r'.head, r'.tail, r'.live, s)
            && (Alloc(r, m).1.Some? ==> Room(r.size, r'.head, r'.tail, m) && Alloc(r, m).1.value == r'.head
                                        && r'.head + m <= r.size)
  {
    assert s != [] ==> r.live != 0;
  }

  /** Where m bytes can go when the live lines, oldest first, are q: after the newest line if that meets
      neither the oldest one nor the end of the pool, or at the front of the pool if the rest of it is
      too short and the front is clear. One byte stays unused so that head never meets the oldest. */
  ghost predicate Takes(r: Ring, q: seq<nat>, m: nat, off: nat)
    requires IdsOf(r.line, q)
  {
    if q == [] then off == 0 && m < r.size
    else
      var oldest := r.line[q[0]].off;
      if r.head < oldest then off == r.head && off + m < oldest
      else if r.head + m <= r.size then off == r.head && (off + m == r.size ==> oldest > 0)
      else off == 0 && m < oldest
  }

  /** A request is granted exactly when there is such a place, and then at that place. */
  lemma {:induction false} AllocGrants(r: Ring, c: nat, q: seq<nat>, m: nat)
    requires Inv(r, c, q)
    ensures var n := if m == 0 then 1 else m;
            forall off: nat :: Alloc(r, m).1 == Some(off) <==> Takes(r, q, n, off)
    ensures q == [] && 0 < m < r.size ==> Alloc(r, m).1 == Some(0)
  {
    hide Follows;
    if q != [] { assert Refs(r.line, q)[0] == r.line[q[0]]; }
  }

  /** There is a place for m bytes among the lines q. */
  ghost predicate HasPlace(r: Ring, q: seq<nat>, m: nat) {
    IdsOf(r.line, q) && exists off: nat :: Takes(r, q, m, off)
  }

  /** The answer to a request: a place for the bytes, or none because there is none. */
  ghost predicate Granted(r: Ring, q: seq<nat>, maxLen: nat, off: Option<nat>) {
    var m := if maxLen == 0 then 1 else maxLen;
    IdsOf(r.line, q) && (off.Some? <==> HasPlace(r, q, m)) && (off.Some? ==> Takes(r, q, m, off.value))
  }

  lemma {:induction false} GrantedOne(r: Ring, c: nat, q: seq<nat>, maxLen: nat)
    requires Inv(r, c, q)
    ensures Granted(r, q, maxLen, Alloc(r, maxLen).1)
  {
    hide Alloc, Takes, Layout;
    AllocGrants(r, c, q, maxLen);
    var g := Alloc(r, maxLen).1;
    var m := if maxLen == 0 then 1 else maxLen;
    if g.Some? {
      assert Takes(r, q, m, g.value);
    } else {
      forall off: nat ensures !Takes(r, q, m, off) {
        assert Alloc(r, maxLen).1 != Some(off);
      }
    }
  }

  lemma {:induction false} GrantedAll(r: Ring, maxLen: nat)
    ensures forall c: nat, q: seq<nat> :: Inv(r, c, q) ==> Granted(r, q, maxLen, Alloc(r, maxLen).1)
  {
    hide Alloc, Granted, Inv;
    forall c: nat, q: seq<nat> | Inv(r, c, q) ensures Granted(r, q, maxLen, Alloc(r, maxLen).1) {
      GrantedOne(r, c, q, maxLen);
    }
  }

  /** A granted range starts at head, fits the pool and keeps clear of every published line; asking
      changes no line and keeps the layout. */
  lemma {:induction false} AllocInv(r: Ring, c: nat, q: seq<nat>, m: nat)
    requires Inv(r, c, q)
    ensures Inv(Alloc(r, m).0, c, q) && Alloc(r, m).0.line == r.line && Alloc(r, m).0.size == r.size
    ensures Alloc(r, m).1.Some? ==>
              var r' := Alloc(r, m).0;
              Room(r.size, r'.head, r'.tail, m) && Alloc(r, m).1.value == r'.head && r'.head + m <= r.size
    ensures Alloc(r, m).1.Some? ==> Clear(r.line, Alloc(r, m).1.value, m)
  {
    hide Layout;
    AllocLayout(r, Refs(r.line, q), m);
    if Alloc(r, m).1.Some? { RoomIsClear(Alloc(r, m).0, c, q, m); }
  }

  /** [off, off + m) overlaps no published line. */
  ghost predicate Clear(line: seq<Ref>, off: nat, m: nat) {
    forall i :: 0 <= i < |line| ==> Disjoint(off, m, line[i].off, line[i].len)
  }

  lemma {:induction false} RoomIsClear(r: Ring, c: nat, q: seq<nat>, m: nat)
    requires Inv(r, c, q) && Room(r.size, r.head, r.tail, m)
    ensures Clear(r.line, r.head, m)
  {
    forall i | 0 <= i < |r.line|
      ensures Disjoint(r.head, m, r.line[i].off, r.line[i].len)
    {
      if r.line[i].len > 0 {
        var k :| 0 <= k < |q| && q[k] == i;
        LayoutRoom(r.size, r.head, r.tail, r.live, Refs(r.line, q), m, k);
      }
    }
  }

  /** Freeing the record at the tail moves the tail to the oldest line that is left. */
  lemma {:induction false} FreeOldest(r: Ring, y: nat, q: seq<nat>, gone: Ref)
    requires y < |r.line| && Order(r.line, NextLine(|r.line|, y), q)
    requires gone.len > 0 && gone.off == r.tail
    requires q != [] ==> Follows(gone, r.line[q[0]])
    ensures FreeOld(r, y, gone) == Retail(r, if q == [] then r.head else r.line[q[0]].off)
  {
    if q != [] { RankBelow(|r.line|, NextLine(|r.line|, y), q[0]); }
    NextLiveIsOldest(r.line, y, q, 1);
  }

  function Retail(r: Ring, t: nat): Ring { r.(tail := t, live := Dist(r.size, t, r.head)) }

  function Pop(s: seq<Ref>, drop: bool): seq<Ref>
    requires drop ==> s != []
  {
    if drop then s[1..] else s
  }

  /** Where the tail goes when the oldest of the allocations s is dropped. */
  function Tail(head: nat, tail: nat, s: seq<Ref>, drop: bool): nat {
    if !drop then tail else if |s| > 1 then s[1].off else head
  }

  lemma {:induction false} PopLayout(size: nat, head: nat, tail: nat, live: int, s: seq<Ref>, drop: bool)
    requires Layout(size, head, tail, live, s) && (drop ==> s != [])
    ensures var t := Tail(head, tail, s, drop);
            Layout(size, head, t, Dist(size, t, head), Pop(s, drop))
    ensures drop ==> s[0].off == tail && s[0].len > 0 && (|s| > 1 ==> Follows(s[0], s[1]))
  {
    if drop { LayoutPop(size, head, tail, live, s); }
  }

  /** The rings that commits end in, with the new tail computed from the layout. */
  lemma {:induction false} Settled(r1: Ring, c: nat, q: seq<nat>, gone: Ref, s: seq<Ref>)
    requires c < |r1.line| && Order(r1.line, NextLine(|r1.line|, c), q)
    requires r1.live == Dist(r1.size, r1.tail, r1.head)
    requires gone.len > 0 ==> s != [] && s[0] == gone && gone.off == r1.tail && (|s| > 1 ==> Follows(s[0], s[1]))
    requires Refs(r1.line, q) == Pop(s, gone.len > 0)
    ensures FreeOld(r1, c, gone) == Retail(r1, Tail(r1.head, r1.tail, s, gone.len > 0))
  {
    if gone.len > 0 {
      assert q != [] ==> r1.line[q[0]] == s[1];
      FreeOldest(r1, c, q, gone);
    }
  }

  /** Committing line c with bytes at head keeps the layout; the record it replaces, if any, was at
      the tail, so the fallback search is never needed. */
  lemma {:induction false} CommitInv(r: Ring, c: nat, q: seq<nat>, len: nat)
    requires Inv(r, c, q) && len > 0 && Room(r.size, r.head, r.tail, len)
    ensures Inv(Commit(r, c, r.head, len), NextLine(|r.line|, c), Survivors(c, q) + [c])
    ensures r.line[c].len > 0 ==> r.line[c].off == r.tail
  {
    hide Layout;
    var l, drop := Ref(r.head, len, false), r.line[c].len > 0;
    var r1 := r.(line := r.line[c := l], head := End(l), live := Dist(r.size, r.tail, End(l)));
    var s := Refs(r.line, q) + [l];
    CommitLayout(r, c, q, l);
    CommitOrder(r.line, c, q, l);
    PopPush(Refs(r.line, q), l, drop);
    Assemble(r1, NextLine(|r.line|, c), Survivors(c, q) + [c], Pop(s, drop), Tail(End(l), r.tail, s, drop));
    CommitTail(r, c, q, l);
  }

  lemma Assemble(r: Ring, c: nat, q: seq<nat>, s: seq<Ref>, t: nat)
    requires c < |r.line| && r.size > 0 && Order(r.line, c, q) && Refs(r.line, q) == s
    requires Layout(r.size, r.head, t, Dist(r.size, t, r.head), s)
    ensures Inv(Retail(r, t), c, q)
  {
  }

  lemma {:induction false} CommitTail(r: Ring, c: nat, q: seq<nat>, l: Ref)
    requires Inv(r, c, q) && l.len > 0 && l.off == r.head && !l.dup && Room(r.size, r.head, r.tail, l.len)
    ensures var r1 := r.(line := r.line[c := l], head := End(l), live := Dist(r.size, r.tail, End(l)));
            Commit(r, c, r.head, l.len)
            == Retail(r1, Tail(End(l), r.tail, Refs(r.line, q) + [l], r.line[c].len > 0))
  {
    hide Layout, NewTail;
    var r1 := r.(line := r.line[c := l], head := End(l), live := Dist(r.size, r.tail, End(l)));
    assert Commit(r, c, r.head, l.len) == FreeOld(r1, c, r.line[c]);
    CommitLayout(r, c, q, l);
    CommitOrder(r.line, c, q, l);
    PopPush(Refs(r.line, q), l, r.line[c].len > 0);
    Settled(r1, c, Survivors(c, q) + [c], r.line[c], Refs(r.line, q) + [l]);
  }

  lemma PopPush(s: seq<Ref>, l: Ref, drop: bool)
    requires drop ==> s != []
    ensures Pop(s + [l], drop) == Pop(s, drop) + [l]
  {
  }

  lemma {:induction false} CommitLayout(r: Ring, c: nat, q: seq<nat>, l: Ref)
    requires Inv(r, c, q) && l.len > 0 && l.off == r.head && Room(r.size, r.head, r.tail, l.len)
    ensures var s, drop := Refs(r.line, q) + [l], r.line[c].len > 0;
            var t := Tail(End(l), r.tail, s, drop);
            && Layout(r.size, End(l), t, Dist(r.size, t, End(l)), Pop(s, drop))
            && (drop ==> q != [] && q[0] == c && s[0] == r.line[c] && s[0].off == r.tail && (|s| > 1 ==> Follows(s[0], s[1])))
  {
    OldestFirst(r.line, c, q);
    LayoutPush(r.size, r.head, r.tail, r.live, Refs(r.line, q), l);
    PopLayout(r.size, End(l), r.tail, r.live + l.len, Refs(r.line, q) + [l], r.line[c].len > 0);
  }

  lemma {:induction false} CommitOrder(line: seq<Ref>, c: nat, q: seq<nat>, l: Ref)
    requires c < |line| && Order(line, c, q) && l.len > 0
    ensures Order(line[c := l], NextLine(|line|, c), Survivors(c, q) + [c])
    ensures Refs(line[c := l], Survivors(c, q) + [c])
            == (if line[c].len > 0 then Refs(line, q)[1..] else Refs(line, q)) + [l]
  {
    var dead := Ref(0, 0, true);
    OrderDrop(line, c, q, dead);
    OrderPublish(line[c := dead], c, Survivors(c, q), l);
    assert line[c := dead][c := l] == line[c := l];
  }

  lemma {:induction false} CommitDupInv(r: Ring, c: nat, q: seq<nat>)
    requires Inv(r, c, q)
    ensures Inv(CommitDup(r, c), NextLine(|r.line|, c), Survivors(c, q))
    ensures r.line[c].len > 0 ==> r.line[c].off == r.tail
  {
    var dead, s, gone := Ref(0, 0, true), Refs(r.line, q), r.line[c];
    OrderDrop(r.line, c, q, dead);
    OldestFirst(r.line, c, q);
    assert gone.len > 0 ==> s[0] == gone;
    PopLayout(r.size, r.head, r.tail, r.live, s, gone.len > 0);
    Settled(r.(line := r.line[c := dead]), c, Survivors(c, q), gone, s);
  }

  lemma {:induction false} CommitLines(r: Ring, y: nat, off: nat, len: nat)
    requires y < |r.line|
    ensures len > 0 ==> Commit(r, y, off, len).line == r.line[y := Ref(off, len, false)]
    ensures CommitDup(r, y).line == r.line[y := Ref(0, 0, true)]
    ensures Commit(r, y, off, len).size == CommitDup(r, y).size == r.size
  {
  }
}
