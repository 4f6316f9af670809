/** One turn of core 1's loop with no interrupt in it: stale lines are freed, the first scanline ahead of
    the beam that no slot holds is picked, and its line is built in the first free slot. */
module HstxTurn {
  import opened HstxSlots

  // ---- which lines are stale -----------------------------------------------------------------

  /** The beam reaches scanline v within the next LINE_SLOTS scanlines. */
  predicate Soon(t: Timing, next: nat, v: nat)
    requires 0 < t.vTotal
  {
    exists a: nat :: a < LINE_SLOTS && InFrame(t, next, a) == v
  }

  /** The a-th scanline from `next` on, round the end of the frame. */
  function InFrame(t: Timing, next: nat, a: nat): (v: nat)
    requires 0 < t.vTotal
    ensures v < t.vTotal
  {
    (next + a) % t.vTotal
  }

  lemma Times(q: int, n: nat)
    ensures (q >= 0 ==> q * n >= 0) && (q >= 1 ==> q * n >= n)
  {
    if q >= 1 { assert q * n == (q - 1) * n + n; }
  }

  /** Scanlines from `next` until v comes round. */
  function Until(t: Timing, next: nat, v: nat): (d: nat)
    requires v < t.vTotal && next < t.vTotal
    ensures d < t.vTotal
  {
    if v >= next then v - next else v + t.vTotal - next
  }

  lemma {:induction false} UntilLeast(t: Timing, next: nat, a: nat)
    requires next < t.vTotal
    ensures Until(t, next, InFrame(t, next, a)) <= a
  {
    var q, v := (next + a) / t.vTotal, (next + a) % t.vTotal;
    assert next + a == q * t.vTotal + v;
    Times(q, t.vTotal);
    Times(q - 1, t.vTotal);
    assert (q - 1) * t.vTotal == q * t.vTotal - t.vTotal;
  }

  lemma {:induction false} UntilReaches(t: Timing, next: nat, v: nat)
    requires next < t.vTotal && v < t.vTotal
    ensures InFrame(t, next, Until(t, next, v)) == v
  {
    Wrap(v, t.vTotal);
  }

  lemma Wrap(v: nat, n: nat)
    requires v < n
    ensures v % n == v && (v + n) % n == v
  {
    assert v + n == 1 * n + v;
  }

  /** A line is stale exactly when its scanline is not among the next ones. */
  lemma {:induction false} StaleIff(t: Timing, y: nat, next: nat)
    requires Timed(t) && next < t.vTotal && y + t.vBlank < t.vTotal
    ensures Stale(t, y, next) <==> !Soon(t, next, y + t.vBlank)
  {
    var v := y + t.vBlank;
    var d := Until(t, next, v);
    if v >= next { Wrap(d, t.vTotal); } else { Wrap(d, t.vTotal); }
    assert (y + t.vBlank + t.vTotal - next) % t.vTotal == d;
    UntilReaches(t, next, v);
    if d < LINE_SLOTS { assert InFrame(t, next, d) == v; }
    if Soon(t, next, v) {
      var a: nat :| a < LINE_SLOTS && InFrame(t, next, a) == v;
      UntilLeast(t, next, a);
    }
  }

  // ---- core 1 alone --------------------------------------------------------------------------

  ghost predicate Ok(t: Timing, s: State) {
    Timed(t) && Good(t, s)
  }

  /** One access of core 1; inside an attempt it waits for the choice of the line. */
  ghost function Tick(t: Timing, s: State): State {
    if Ok(t, s) && !s.pc.Attempt? then CoreNext(t, s) else s
  }

  /** n accesses of core 1 in a row. */
  ghost function Alone(t: Timing, s: State, n: nat): State
    decreases n
  {
    if n == 0 then s else Alone(t, Tick(t, s), n - 1)
  }

  lemma AloneOne(t: Timing, s: State)
    ensures Alone(t, s, 0) == s && Alone(t, s, 1) == Tick(t, s)
  {
    assert Alone(t, Tick(t, s), 0) == Tick(t, s);
  }

  lemma {:induction false} AloneMore(t: Timing, s: State, n: nat, m: nat)
    ensures Alone(t, s, n + m) == Alone(t, Alone(t, s, n), m)
    decreases n
  {
    hide Tick;
    if n > 0 { AloneMore(t, Tick(t, s), n - 1, m); }
  }

  lemma {:induction false} TickOk(t: Timing, s: State)
    requires Ok(t, s) && !s.pc.Attempt?
    ensures Tick(t, s) == CoreNext(t, s) && Ok(t, Tick(t, s))
  {
    StepGood(t, s, Core);
    hide CoreNext, Good;
  }

  // ---- looking for the row to build ----------------------------------------------------------

  /** A slot in use holds row y. */
  ghost predicate Held(s: Slots, y: nat) {
    exists k :: 0 <= k < |s.use| && k < |s.y| && s.use[k] != Free && s.y[k] == y
  }

  /** The a-th scanline from next on shows row y. */
  predicate Shows(t: Timing, next: nat, a: nat, y: nat)
    requires 0 < t.vTotal
  {
    InFrame(t, next, a) == t.vBlank + y
  }

  /** y is the row of the first active scanline, from the `from`-th ahead on, that no slot holds. */
  ghost predicate FirstMissing(t: Timing, s: Slots, next: nat, from: nat, y: nat)
    requires 0 < t.vTotal
  {
    && !Held(s, y)
    && exists a: nat :: from <= a < LINE_SLOTS && Shows(t, next, a, y)
                        && forall b: nat, z: nat :: from <= b < a && Shows(t, next, b, z) ==> Held(s, z)
  }

  ghost predicate NoneMissing(t: Timing, s: Slots, next: nat, from: nat)
    requires 0 < t.vTotal
  {
    forall b: nat, z: nat :: from <= b < LINE_SLOTS && Shows(t, next, b, z) ==> Held(s, z)
  }

  /** How the search from the `from`-th scanline ahead ends: a row to build is picked, or none is missing. */
  ghost predicate Searched(t: Timing, s: Slots, next: nat, from: nat, pc: Core1) {
    && 0 < t.vTotal
    && if pc.Pick? then pc.k == 0 && FirstMissing(t, s, next, from, pc.y)
       else pc == ReadNext && NoneMissing(t, s, next, from)
  }

  /** The a-th scanline from next on is one of the active ones, and shows row y. */
  ghost predicate Active(t: Timing, next: nat, a: nat, y: nat) {
    && Timed(t) && t.vBlank <= (next + a) % t.vTotal && y == Wanted(t, next, a)
    && a < LINE_SLOTS && next < t.vTotal
  }

  lemma ActiveShows(t: Timing, next: nat, a: nat, y: nat)
    requires Active(t, next, a, y)
    ensures Shows(t, next, a, y) && forall z: nat :: Shows(t, next, a, z) ==> z == y
  {
  }

  /** One access while looking through the slots. */
  lemma {:induction false} ScanStep(t: Timing, s: State, next: nat, a: nat, k: nat) returns (y: nat)
    requires Ok(t, s) && s.pc == Scan(next, a, k)
    ensures Active(t, next, a, y) && k <= LINE_SLOTS && Ok(t, Tick(t, s))
    ensures k == LINE_SLOTS ==> Tick(t, s) == s.(pc := Pick(y, 0)) && !Held(s.sh, y)
    ensures k < LINE_SLOTS ==> Tick(t, s) == s.(pc := Scan(next, a, k + 1))
                               || (Tick(t, s) == s.(pc := ScanFrom(t, next, a + 1)) && Held(s.sh, y))
  {
    TickOk(t, s);
    y := Wanted(t, next, a);
    hide Safe, Tick, ScanFrom, Wanted;
  }

  /** The slots are looked through for one row. */
  lemma {:induction false} SlotsScanned(t: Timing, s: State, next: nat, a: nat, k: nat) returns (n: nat, r: State, y: nat)
    requires Ok(t, s) && s.pc == Scan(next, a, k)
    ensures r == Alone(t, s, n) && Ok(t, r) && Active(t, next, a, y)
    ensures r == s.(pc := if Held(s.sh, y) then ScanFrom(t, next, a + 1) else Pick(y, 0))
    decreases LINE_SLOTS - k
  {
    hide Ok, Tick, Alone, ScanFrom, Held, Active;
    y := ScanStep(t, s, next, a, k);
    var u := Tick(t, s);
    AloneOne(t, s);
    n, r := 1, u;
    if k < LINE_SLOTS && u.pc == Scan(next, a, k + 1) {
      var z;
      n, r, z := SlotsScanned(t, u, next, a, k + 1);
      ActiveOnce(t, next, a, y, z);
      AloneMore(t, s, 1, n);
      n := 1 + n;
    }
  }

  lemma ActiveOnce(t: Timing, next: nat, a: nat, y: nat, z: nat)
    requires Active(t, next, a, y) && Active(t, next, a, z)
    ensures y == z && a + 1 <= LINE_SLOTS && 0 < t.vTotal
  {
  }

  /** From the a-th scanline ahead on: the first row missing is picked, or there is none. */
  lemma {:induction false} AheadScanned(t: Timing, s: State, next: nat, a: nat) returns (n: nat, r: State)
    requires Ok(t, s) && a <= LINE_SLOTS && 0 < t.vTotal && s.pc == ScanFrom(t, next, a)
    ensures r == Alone(t, s, n) && Ok(t, r) && r == s.(pc := r.pc)
    ensures Searched(t, s.sh, next, a, r.pc)
    decreases LINE_SLOTS - a
  {
    hide Ok, Tick, Alone, Active, Held, Searched, ScanFrom, Passive;
    ScanFromIs(t, next, a);
    AloneOne(t, s);
    if a == LINE_SLOTS {
      NoMore(t, s.sh, next);
      return 0, s;
    }
    if Passive(t, next, a) {
      n, r := AheadScanned(t, s, next, a + 1);
      Skipped(t, s.sh, next, a, r.pc);
    } else {
      var y;
      n, r, y := SlotsScanned(t, s, next, a, 0);
      if Held(s.sh, y) {
        var m;
        m, r := AheadScanned(t, r, next, a + 1);
        AloneMore(t, s, n, m);
        n := n + m;
        Passed(t, s.sh, next, a, y, r.pc);
      } else {
        Missed(t, s.sh, next, a, y);
      }
    }
  }

  /** The a-th scanline from next on is not an active one. */
  predicate Passive(t: Timing, next: nat, a: nat) {
    0 < t.vTotal && (next + a) % t.vTotal < t.vBlank
  }

  lemma ScanFromIs(t: Timing, next: nat, a: nat)
    requires 0 < t.vTotal && a <= LINE_SLOTS
    ensures ScanFrom(t, next, a) == if a == LINE_SLOTS then ReadNext
                                    else if Passive(t, next, a) then ScanFrom(t, next, a + 1)
                                    else Scan(next, a, 0)
  {
  }

  lemma NoMore(t: Timing, s: Slots, next: nat)
    requires 0 < t.vTotal
    ensures Searched(t, s, next, LINE_SLOTS, ReadNext)
  {
  }

  lemma Missed(t: Timing, s: Slots, next: nat, a: nat, y: nat)
    requires Active(t, next, a, y) && !Held(s, y)
    ensures Searched(t, s, next, a, Pick(y, 0))
  {
    hide Held;
    ActiveShows(t, next, a, y);
  }

  lemma Skipped(t: Timing, s: Slots, next: nat, a: nat, pc: Core1)
    requires Passive(t, next, a)
    ensures Searched(t, s, next, a + 1, pc) ==> Searched(t, s, next, a, pc)
  {
    hide Held;
  }

  lemma Passed(t: Timing, s: Slots, next: nat, a: nat, y: nat, pc: Core1)
    requires Active(t, next, a, y) && Held(s, y)
    ensures Searched(t, s, next, a + 1, pc) ==> Searched(t, s, next, a, pc)
  {
    ActiveShows(t, next, a, y);
    hide Held, Active;
  }

  lemma PruneStep(t: Timing, s: State)
    requires Ok(t, s) && s.pc.Prune?
    ensures Shape(s.sh) && 0 < t.vTotal && s.pc.next < t.vTotal && Ok(t, Tick(t, s))
    ensures Tick(t, s) == s.(sh := FreeStale(t, s.sh, s.pc.next), pc := ScanFrom(t, s.pc.next, 0))
  {
    TickOk(t, s);
    hide Tick, Safe, FreeStale, ScanFrom;
  }

  /** After the pruning the first row ahead of the beam that no slot holds is picked, if there is one. */
  lemma {:induction false} FirstMissingPicked(t: Timing, s: State) returns (n: nat, r: State)
    requires Ok(t, s) && s.pc.Prune?
    ensures Shape(s.sh) && 0 < t.vTotal && s.pc.next < t.vTotal
    ensures r == Alone(t, s, n) && Ok(t, r) && r == s.(sh := FreeStale(t, s.sh, s.pc.next), pc := r.pc)
    ensures Searched(t, r.sh, s.pc.next, 0, r.pc)
  {
    PruneStep(t, s);
    AloneOne(t, s);
    hide Ok, Tick, FreeStale, ScanFrom, Alone, Searched, Shape;
    n, r := AheadScanned(t, Tick(t, s), s.pc.next, 0);
    AloneMore(t, s, 1, n);
    n := 1 + n;
  }

  // ---- building it ---------------------------------------------------------------------------

  /** j is the first free slot. */
  predicate FirstFree(s: Slots, j: nat) {
    j < |s.use| && s.use[j] == Free && forall k :: 0 <= k < j ==> s.use[k] != Free
  }

  predicate NoneFree(s: Slots, n: nat) {
    n <= |s.use| && forall k :: 0 <= k < n ==> s.use[k] != Free
  }

  lemma PickStep(t: Timing, s: State, y: nat, k: nat)
    requires Ok(t, s) && s.pc == Pick(y, k) && NoneFree(s.sh, k)
    ensures Ok(t, Tick(t, s)) && k <= LINE_SLOTS
    ensures k == LINE_SLOTS ==> Tick(t, s) == s.(pc := ReadNext)
    ensures k < LINE_SLOTS ==> (Tick(t, s) == s.(pc := Attempt(k, y)) && FirstFree(s.sh, k))
                               || (Tick(t, s) == s.(pc := Pick(y, k + 1)) && NoneFree(s.sh, k + 1))
  {
    TickOk(t, s);
    hide Tick, Safe;
  }

  /** The first free slot is taken, if there is one. */
  lemma {:induction false} FreeTaken(t: Timing, s: State, y: nat, k: nat) returns (n: nat, r: State)
    requires Ok(t, s) && s.pc == Pick(y, k) && NoneFree(s.sh, k)
    ensures r == Alone(t, s, n) && Ok(t, r)
    ensures (r == s.(pc := ReadNext) && NoneFree(s.sh, LINE_SLOTS))
            || (r.pc.Attempt? && r == s.(pc := Attempt(r.pc.slot, y)) && FirstFree(s.sh, r.pc.slot))
    decreases LINE_SLOTS - k
  {
    hide Ok, Tick, Alone, FirstFree, NoneFree;
    PickStep(t, s, y, k);
    AloneOne(t, s);
    n, r := 1, Tick(t, s);
    if k < LINE_SLOTS && r.pc == Pick(y, k + 1) {
      n, r := FreeTaken(t, r, y, k + 1);
      AloneMore(t, s, 1, n);
      n := 1 + n;
    }
  }

  /** s and r are alike but for the words of slot k. */
  ghost predicate OnlyWords(s: Slots, r: Slots, k: nat) {
    && r == s.(words := r.words) && |r.words| == |s.words|
    && forall j :: 0 <= j < |s.words| && j != k ==> r.words[j] == s.words[j]
  }

  lemma BuildStep(t: Timing, s: State, k: nat, y: nat, line: seq<nat>, done: nat)
    requires Ok(t, s) && s.pc == Build(k, y, line, done)
    ensures Ok(t, Tick(t, s)) && done <= |line| && OnlyWords(s.sh, Tick(t, s).sh, k) && Tick(t, s) == s.(pc := Tick(t, s).pc, sh := Tick(t, s).sh)
    ensures Tick(t, s).pc == if done == |line| then SetLen(k, y, line) else Build(k, y, line, done + 1)
  {
    TickOk(t, s);
    hide Tick, Safe;
  }

  lemma OnlyWordsJoin(a: Slots, b: Slots, c: Slots, k: nat)
    requires OnlyWords(a, b, k) && OnlyWords(b, c, k)
    ensures OnlyWords(a, c, k)
  {
  }

  /** The words are written one by one. */
  lemma {:induction false} WordsWritten(t: Timing, s: State, k: nat, y: nat, line: seq<nat>, done: nat) returns (n: nat, r: State)
    requires Ok(t, s) && s.pc == Build(k, y, line, done)
    ensures r == Alone(t, s, n) && Ok(t, r) && OnlyWords(s.sh, r.sh, k) && r == s.(pc := SetLen(k, y, line), sh := r.sh)
    decreases |line| - done
  {
    hide Ok, Tick, Alone, OnlyWords;
    BuildStep(t, s, k, y, line, done);
    AloneOne(t, s);
    var u := Tick(t, s);
    n, r := 1, u;
    if done < |line| {
      n, r := WordsWritten(t, u, k, y, line, done + 1);
      AloneMore(t, s, 1, n);
      OnlyWordsJoin(s.sh, u.sh, r.sh, k);
      n := 1 + n;
    }
  }

  lemma LenStep(t: Timing, s: State, k: nat, y: nat, line: seq<nat>)
    requires Ok(t, s) && s.pc == SetLen(k, y, line)
    ensures Ok(t, Tick(t, s)) && k < LINE_SLOTS && |s.sh.len| == |s.sh.y| == |s.sh.use| == LINE_SLOTS && |s.made| == LINE_SLOTS
    ensures Tick(t, s) == s.(pc := SetY(k, y, line), sh := s.sh.(len := s.sh.len[k := |line|]))
  {
    TickOk(t, s);
    hide Tick, PostedAre, ChannelsAre, LinesDiffer;
  }

  lemma RowStep(t: Timing, s: State, k: nat, y: nat, line: seq<nat>)
    requires Ok(t, s) && s.pc == SetY(k, y, line)
    ensures Ok(t, Tick(t, s)) && k < |s.sh.y|
    ensures Tick(t, s) == s.(pc := SetReady(k, y, line), sh := s.sh.(y := s.sh.y[k := y]))
  {
    TickOk(t, s);
    hide Tick, Safe;
  }

  lemma ReadyStep(t: Timing, s: State, k: nat, y: nat, line: seq<nat>)
    requires Ok(t, s) && s.pc == SetReady(k, y, line)
    ensures Ok(t, Tick(t, s)) && k < |s.sh.use| && k < |s.made|
    ensures Tick(t, s) == s.(pc := ReadNext, sh := s.sh.(use := s.sh.use[k := Ready]), made := s.made[k := Built(y, line)])
  {
    TickOk(t, s);
    hide Tick, PostedAre, ChannelsAre, LinesDiffer;
  }

  /** Slot k is ready for row y with a line of n words; everything else but its words is as before. */
  ghost predicate Readied(s: Slots, r: Slots, k: nat, y: nat, n: nat) {
    && k < |s.use| && k < |s.y| && k < |s.len|
    && r == s.(use := s.use[k := Ready], y := s.y[k := y], len := s.len[k := n])
  }

  /** Length, row and state are published in this order. */
  lemma {:induction false} Published(t: Timing, s: State, k: nat, y: nat, line: seq<nat>) returns (r: State)
    requires Ok(t, s) && s.pc == SetLen(k, y, line)
    ensures r == Alone(t, s, 3) && Ok(t, r) && r.pc == ReadNext && Readied(s.sh, r.sh, k, y, |line|)
    ensures k < |s.made| == LINE_SLOTS && r.made == s.made[k := Built(y, line)]
  {
    hide Ok, Tick, Alone;
    LenStep(t, s, k, y, line);
    var b := Tick(t, s);
    RowStep(t, b, k, y, line);
    var c := Tick(t, b);
    ReadyStep(t, c, k, y, line);
    r := Tick(t, c);
    ThreeTicks(t, s);
  }

  lemma ThreeTicks(t: Timing, s: State)
    ensures Alone(t, s, 3) == Tick(t, Tick(t, Tick(t, s)))
  {
    hide Tick, Alone;
    AloneMore(t, s, 1, 2);
    AloneMore(t, Tick(t, s), 1, 1);
    AloneOne(t, s);
    AloneOne(t, Tick(t, s));
    AloneOne(t, Tick(t, Tick(t, s)));
  }

  /** Once a line is decided on, it ends up whole in its slot, ready for its row, and no other slot has
      changed. */
  lemma {:induction false} LineBuilt(t: Timing, s: State, k: nat, y: nat, line: seq<nat>, done: nat) returns (n: nat, a: Slots, r: State)
    requires Ok(t, s) && s.pc == Build(k, y, line, done)
    ensures r == Alone(t, s, n) && Ok(t, r) && r.pc == ReadNext
    ensures OnlyWords(s.sh, a, k) && Readied(a, r.sh, k, y, |line|)
    ensures k < LINE_SLOTS && Shape(r.sh) && Whole(r.sh, k, line)
  {
    hide Ok, Alone, Whole, OnlyWords, Shape, Tick;
    var m, u := WordsWritten(t, s, k, y, line, done);
    r := Published(t, u, k, y, line);
    AloneMore(t, s, m, 3);
    n, a := m + 3, u.sh;
    ReadyWhole(t, r, k, line);
  }

  lemma ReadyWhole(t: Timing, r: State, k: nat, line: seq<nat>)
    requires Ok(t, r) && k < |r.sh.use| && r.sh.use[k] == Ready && k < |r.made| && r.made[k].line == line
    ensures Shape(r.sh) && k < LINE_SLOTS && Whole(r.sh, k, line)
  {
    hide PcOk, PostedAre, ChannelsAre, LinesDiffer;
  }

  // ---- the order of the scanlines ------------------------------------------------------------

  /** Interrupts in a schedule. */
  function Irqs(steps: seq<Step>): (n: nat) {
    if steps == [] then 0 else Irqs(steps[..|steps| - 1]) + if steps[|steps| - 1].Irq? then 1 else 0
  }

  /** After n interrupts the next one takes scanline 2 + n, counted round the frame, on the channel whose
      turn it is. */
  ghost predicate InOrder(t: Timing, s: Slots, n: nat) {
    0 < t.vTotal && s.next == (2 + n) % t.vTotal && (s.pong <==> n % 2 == 1)
  }

  lemma {:induction false} NextLine(t: Timing, s: State, step: Step, n: nat)
    requires Ok(t, s) && Enabled(t, s, step) && InOrder(t, s.sh, n)
    ensures InOrder(t, Next(t, s, step).sh, n + if step.Irq? then 1 else 0)
  {
    hide Ok, Next;
    if step.Irq? { IrqNext(t, s); ModNext(2 + n, t.vTotal); } else { OthersKeep(t, s, step); }
  }

  lemma IrqNext(t: Timing, s: State)
    requires Ok(t, s)
    ensures var u := Next(t, s, Irq).sh;
            u.next == (if s.sh.next + 1 >= t.vTotal then 0 else s.sh.next + 1) && u.pong == !s.sh.pong && t.vTotal > 2
  {
    InterruptIs(t, s.sh);
    hide Interrupt, Release, Post, Safe, PcOk;
  }

  lemma OthersKeep(t: Timing, s: State, step: Step)
    requires Ok(t, s) && Enabled(t, s, step) && !step.Irq?
    ensures Next(t, s, step).sh.next == s.sh.next && Next(t, s, step).sh.pong == s.sh.pong
  {
    hide PostedAre, ChannelsAre, LinesDiffer, AllWhole, ScanFrom, Wanted, Stale;
  }

  lemma ModNext(a: nat, n: nat)
    requires n > 2
    ensures (a + 1) % n == if a % n + 1 >= n then 0 else a % n + 1
  {
    var q, r := a / n, a % n;
    if r + 1 >= n {
      assert a + 1 == (q + 1) * n;
      Multiple(q + 1, n);
    } else {
      Remainder(q, n, r + 1);
    }
  }

  lemma Multiple(q: nat, n: nat)
    requires n > 0
    ensures q * n % n == 0
  {
    Remainder(q, n, 0);
  }

  lemma Remainder(q: nat, n: nat, r: nat)
    requires r < n
    ensures (q * n + r) % n == r
  {
    var x := q * n + r;
    assert x == x / n * n + x % n;
    assert (q - x / n) * n == x % n - r;
    Times(q - x / n, n);
    Times(x / n - q, n);
    assert (x / n - q) * n == r - x % n;
  }

  /** Under every interleaving the interrupts take the scanlines one after the other, from the third of the
      first frame on and round the frame without leaving one out, and the two channels by turns. */
  lemma {:induction false} LinesInOrder(t: Timing, s: State, steps: seq<Step>)
    requires Timed(t) && Init(t, s)
    ensures Good(t, s) && InOrder(t, After(t, s, steps).sh, Irqs(steps))
    decreases |steps|
  {
    hide Good, Next, Enabled, Ok, After, Init, InOrder, Shape;
    InitGood(t, s);
    if steps == [] {
      Starts(t, s);
    } else {
      var pre, step := steps[..|steps| - 1], steps[|steps| - 1];
      LinesInOrder(t, s, pre);
      AfterStep(t, s, pre, step);
      assert steps == pre + [step];
      var p := After(t, s, pre);
      if Enabled(t, p, step) { NextLine(t, p, step, Irqs(pre)); }
    }
  }

  lemma AfterStep(t: Timing, s: State, pre: seq<Step>, step: Step)
    requires Timed(t) && Good(t, s)
    ensures var (p, q) := (After(t, s, pre), After(t, s, pre + [step]));
            Ok(t, p) && if Enabled(t, p, step) then q == Next(t, p, step) else q == p && !step.Irq?
  {
    assert (pre + [step])[..|pre|] == pre;
    Always(t, After(t, s, pre), step);
    hide Good, Next, Enabled;
  }

  lemma Starts(t: Timing, s: State)
    requires Timed(t) && Init(t, s) && Good(t, s)
    ensures InOrder(t, After(t, s, []).sh, 0)
  {
    Remainder(0, t.vTotal, 2);
  }

  /** The interrupt is never held up. */
  lemma Always(t: Timing, s: State, step: Step)
    ensures step.Irq? ==> Enabled(t, s, step)
  {
  }
}
