/** The line slots of the HSTX scanout. Core 1 builds lines ahead of the beam; the DMA interrupt
    preempts it at any point, frees the slot its channel just sent and hands the channel the next
    one. Every access core 1 makes to shared state is one step, except the pruning loop, which runs
    with interrupts disabled. */
module HstxSlots {
  const LINE_SLOTS := 8
  /** Room in a slot, in 32-bit words: 6 + 2 * 1024 + 2. */
  const LINE_WORDS := 2056

  datatype Use = Free | Ready | Posted

  /** What a DMA channel sends: one of the fixed lines, or `n` words of slot `k`, built for line `y`. */
  datatype Feed = VSync | Blank | Black | Line(y: nat, k: nat, n: nat)

  /** First and end scanline of the vertical sync, first active scanline, scanlines in a frame. */
  datatype Timing = Timing(vsyncFirst: nat, vsyncEnd: nat, vBlank: nat, vTotal: nat)

  /** The state the interrupt shares with core 1. posted[i] is -1 or the slot channel i is sending. */
  datatype Slots = Slots(use: seq<Use>, y: seq<nat>, len: seq<nat>, words: seq<seq<nat>>,
                         posted: seq<int>, pong: bool, next: nat, chan: seq<Feed>)

  /** A finished line and the row of the picture it was built for. */
  datatype Built = Built(y: nat, line: seq<nat>)

  /** Where core 1 is in its loop. Attempt writes words that may yet be abandoned (a line with more
      runs than a slot holds); Build writes the line that will be published. */
  datatype Core1 =
    | ReadNext
    | Prune(next: nat)
    | Scan(next: nat, ahead: nat, k: nat)
    | Pick(y: nat, k: nat)
    | Attempt(slot: nat, y: nat)
    | Build(slot: nat, y: nat, line: seq<nat>, done: nat)
    | SetLen(slot: nat, y: nat, line: seq<nat>)
    | SetY(slot: nat, y: nat, line: seq<nat>)
    | SetReady(slot: nat, y: nat, line: seq<nat>)

  /** `made` is history: the line core 1 last completed in each slot. */
  datatype State = State(sh: Slots, pc: Core1, made: seq<Built>)

  /** Core is core 1's next access; the two others are its choices inside an attempt. */
  datatype Step = Irq | Core | Scratch(i: nat, w: nat) | Decide(line: seq<nat>)

  ghost predicate Timed(t: Timing) {
    t.vsyncFirst <= t.vsyncEnd <= t.vBlank < t.vTotal <= 0x10000 && 2 < t.vTotal
  }

  ghost predicate Shape(s: Slots) {
    && |s.use| == |s.y| == |s.len| == |s.words| == LINE_SLOTS
    && (forall k :: 0 <= k < LINE_SLOTS ==> |s.words[k]| == LINE_WORDS)
    && |s.posted| == |s.chan| == 2
    && (forall i :: 0 <= i < 2 ==> -1 <= s.posted[i] < LINE_SLOTS)
  }

  ghost predicate Init(t: Timing, s: State) {
    && Shape(s.sh) && |s.made| == LINE_SLOTS
    && (forall k :: 0 <= k < LINE_SLOTS ==> s.sh.use[k] == Free)
    && s.sh.posted == [-1, -1] && s.sh.chan == [Blank, Blank] && !s.sh.pong && s.sh.next == 2
    && s.pc == ReadNext
  }

  // ---- the interrupt -------------------------------------------------------------------------

  /** First slot at or after k that is ready and holds line y; LINE_SLOTS if there is none. */
  function FindReady(use: seq<Use>, ys: seq<nat>, y: nat, k: nat): (r: nat)
    requires |use| == |ys| == LINE_SLOTS && k <= LINE_SLOTS
    ensures k <= r <= LINE_SLOTS
    ensures r < LINE_SLOTS ==> use[r] == Ready && ys[r] == y
    ensures forall j :: k <= j < r ==> !(use[j] == Ready && ys[j] == y)
    decreases LINE_SLOTS - k
  {
    if k == LINE_SLOTS || (use[k] == Ready && ys[k] == y) then k else FindReady(use, ys, y, k + 1)
  }

  /** Channel i has finished: the slot it was sending is free again. */
  function Release(s: Slots, i: nat): Slots
    requires Shape(s) && i < 2
  {
    if s.posted[i] >= 0
    then s.(use := s.use[s.posted[i] := Free], posted := s.posted[i := -1])
    else s
  }

  /** Channel i is given scanline v. */
  function Post(t: Timing, s: Slots, i: nat, v: nat): Slots
    requires Shape(s) && i < 2
  {
    if t.vsyncFirst <= v < t.vsyncEnd then s.(chan := s.chan[i := VSync])
    else if v < t.vBlank then s.(chan := s.chan[i := Blank])
    else
      var k := FindReady(s.use, s.y, (v - t.vBlank) % 0x10000, 0);
      if k < LINE_SLOTS
      then s.(use := s.use[k := Posted], posted := s.posted[i := k], chan := s.chan[i := Line(s.y[k], k, s.len[k])])
      else s.(chan := s.chan[i := Black])
  }

  function Turn(s: Slots): nat {
    if s.pong then 1 else 0
  }

  function Interrupt(t: Timing, s: Slots): Slots
    requires Shape(s)
  {
    var p := Post(t, Release(s, Turn(s)), Turn(s), s.next);
    p.(pong := !s.pong, next := if s.next + 1 >= t.vTotal then 0 else s.next + 1)
  }

  // ---- core 1 --------------------------------------------------------------------------------

  /** A ready line whose scanline is not among the LINE_SLOTS after `next`. */
  predicate Stale(t: Timing, y: nat, next: nat)
    requires 0 < t.vTotal && next <= t.vTotal
  {
    (y + t.vBlank + t.vTotal - next) % t.vTotal >= LINE_SLOTS
  }

  function FreeStale(t: Timing, s: Slots, next: nat): (r: Slots)
    requires Shape(s) && 0 < t.vTotal && next <= t.vTotal
  {
    s.(use := seq<Use>(LINE_SLOTS, k requires 0 <= k < LINE_SLOTS =>
         if s.use[k] == Ready && Stale(t, s.y[k], next) then Free else s.use[k]))
  }

  /** The scan for the first scanline ahead of the beam that no slot holds, from its `ahead`-th on. */
  function ScanFrom(t: Timing, next: nat, ahead: nat): Core1
    requires 0 < t.vTotal && ahead <= LINE_SLOTS
    decreases LINE_SLOTS - ahead
  {
    if ahead == LINE_SLOTS then ReadNext
    else if (next + ahead) % t.vTotal < t.vBlank then ScanFrom(t, next, ahead + 1)
    else Scan(next, ahead, 0)
  }

  function Wanted(t: Timing, next: nat, ahead: nat): nat
    requires 0 < t.vTotal && t.vBlank <= (next + ahead) % t.vTotal
  {
    ((next + ahead) % t.vTotal - t.vBlank) % 0x10000
  }

  predicate Enabled(t: Timing, s: State, step: Step) {
    step.Irq? || (s.pc.Attempt? <==> step.Scratch? || step.Decide?)
  }

  function Next(t: Timing, s: State, step: Step): State
    requires Timed(t) && Good(t, s) && Enabled(t, s, step)
  {
    match step
    case Irq => s.(sh := Interrupt(t, s.sh))
    case Scratch(i, w) => if i < LINE_WORDS then s.(sh := PutWord(s.sh, s.pc.slot, i, w)) else s
    case Decide(line) => if |line| <= LINE_WORDS then s.(pc := Build(s.pc.slot, s.pc.y, line, 0)) else s
    case Core => CoreNext(t, s)
  }

  function PutWord(s: Slots, k: nat, i: nat, w: nat): Slots
    requires Shape(s) && k < LINE_SLOTS && i < LINE_WORDS
  {
    var row: seq<nat> := s.words[k][i := w];
    s.(words := s.words[k := row])
  }

  function CoreNext(t: Timing, s: State): State
    requires Timed(t) && Good(t, s) && !s.pc.Attempt?
  {
    match s.pc
    case ReadNext => s.(pc := Prune(s.sh.next))
    case Prune(next) => s.(sh := FreeStale(t, s.sh, next), pc := ScanFrom(t, next, 0))
    case Scan(next, ahead, k) =>
      if k == LINE_SLOTS then s.(pc := Pick(Wanted(t, next, ahead), 0))
      else if s.sh.use[k] != Free && s.sh.y[k] == Wanted(t, next, ahead) then s.(pc := ScanFrom(t, next, ahead + 1))
      else s.(pc := Scan(next, ahead, k + 1))
    case Pick(y, k) =>
      if k == LINE_SLOTS then s.(pc := ReadNext)
      else if s.sh.use[k] == Free then s.(pc := Attempt(k, y))
      else s.(pc := Pick(y, k + 1))
    case Build(slot, y, line, done) =>
      if done == |line| then s.(pc := SetLen(slot, y, line))
      else s.(sh := PutWord(s.sh, slot, done, line[done]), pc := Build(slot, y, line, done + 1))
    case SetLen(slot, y, line) =>
      s.(sh := s.sh.(len := s.sh.len[slot := |line|]), pc := SetY(slot, y, line))
    case SetY(slot, y, line) =>
      s.(sh := s.sh.(y := s.sh.y[slot := y]), pc := SetReady(slot, y, line))
    case SetReady(slot, y, line) =>
      s.(sh := s.sh.(use := s.sh.use[slot := Ready]), pc := ReadNext, made := s.made[slot := Built(y, line)])
  }

  // ---- what every reachable state satisfies --------------------------------------------------

  /** The posted slots are exactly the slots the two channels are sending, and those differ. */
  ghost predicate PostedAre(s: Slots)
    requires Shape(s)
  {
    && (forall k :: 0 <= k < LINE_SLOTS ==> (s.use[k] == Posted <==> s.posted[0] == k || s.posted[1] == k))
    && (s.posted[0] >= 0 ==> s.posted[0] != s.posted[1])
  }

  /** A channel sends a line exactly when it has a posted slot, and then all of that slot's line. */
  ghost predicate ChannelIs(s: Slots, i: nat)
    requires Shape(s) && i < 2
  {
    if s.posted[i] < 0 then !s.chan[i].Line? else s.chan[i] == Line(s.y[s.posted[i]], s.posted[i], s.len[s.posted[i]])
  }

  ghost predicate ChannelsAre(s: Slots)
    requires Shape(s)
  {
    ChannelIs(s, 0) && ChannelIs(s, 1)
  }

  /** No two slots in use hold the same line. */
  ghost predicate LinesDiffer(s: Slots)
    requires Shape(s)
  {
    forall j, k :: 0 <= j < LINE_SLOTS && 0 <= k < LINE_SLOTS && j != k && s.use[j] != Free && s.use[k] != Free
      ==> s.y[j] != s.y[k]
  }

  /** Slot k holds the whole of `line`. */
  ghost predicate Whole(s: Slots, k: nat, line: seq<nat>)
    requires Shape(s) && k < LINE_SLOTS
  {
    s.len[k] == |line| <= LINE_WORDS && s.words[k][..|line|] == line
  }

  ghost predicate AllWhole(s: Slots, made: seq<Built>)
    requires Shape(s)
  {
    |made| == LINE_SLOTS && forall k :: 0 <= k < LINE_SLOTS && s.use[k] != Free ==> s.y[k] == made[k].y && Whole(s, k, made[k].line)
  }

  /** None of the first n slots is in use for line y. */
  ghost predicate Unheld(s: Slots, y: nat, n: nat)
    requires Shape(s) && n <= LINE_SLOTS
  {
    forall k :: 0 <= k < n && s.use[k] != Free ==> s.y[k] != y
  }

  ghost predicate Owns(s: Slots, k: nat, y: nat)
    requires Shape(s)
  {
    k < LINE_SLOTS && s.use[k] == Free && Unheld(s, y, LINE_SLOTS)
  }

  ghost predicate PcOk(t: Timing, s: Slots, pc: Core1)
    requires Shape(s) && Timed(t)
  {
    match pc
    case ReadNext => true
    case Prune(next) => next < t.vTotal
    case Scan(next, ahead, k) =>
      && next < t.vTotal && ahead < LINE_SLOTS && k <= LINE_SLOTS
      && t.vBlank <= (next + ahead) % t.vTotal
      && Unheld(s, Wanted(t, next, ahead), k)
    case Pick(y, k) => k <= LINE_SLOTS && Unheld(s, y, LINE_SLOTS)
    case Attempt(slot, y) => Owns(s, slot, y)
    case Build(slot, y, line, done) =>
      Owns(s, slot, y) && done <= |line| <= LINE_WORDS && s.words[slot][..done] == line[..done]
    case SetLen(slot, y, line) =>
      Owns(s, slot, y) && |line| <= LINE_WORDS && s.words[slot][..|line|] == line
    case SetY(slot, y, line) => Owns(s, slot, y) && Whole(s, slot, line)
    case SetReady(slot, y, line) => Owns(s, slot, y) && Whole(s, slot, line) && s.y[slot] == y
  }

  ghost predicate Safe(s: Slots, made: seq<Built>) {
    Shape(s) && PostedAre(s) && ChannelsAre(s) && LinesDiffer(s) && AllWhole(s, made)
  }

  ghost predicate Good(t: Timing, s: State)
    requires Timed(t)
  {
    Safe(s.sh, s.made) && s.sh.next < t.vTotal && PcOk(t, s.sh, s.pc)
  }

  lemma {:induction false} InitGood(t: Timing, s: State)
    requires Timed(t) && Init(t, s)
    ensures Good(t, s)
  {
  }

  // ---- the interrupt keeps it ----------------------------------------------------------------

  /** What the interrupt and the pruning loop may change: slots in use stay as they are or are freed. */
  ghost predicate Narrows(s: Slots, s': Slots)
    requires Shape(s)
  {
    && Shape(s') && s'.y == s.y && s'.len == s.len && s'.words == s.words
    && forall k :: 0 <= k < LINE_SLOTS && s'.use[k] != Free ==> s.use[k] != Free
  }

  lemma {:induction false} NarrowsKeeps(t: Timing, s: Slots, s': Slots, pc: Core1, made: seq<Built>)
    requires Timed(t) && Shape(s) && PcOk(t, s, pc) && Narrows(s, s') && LinesDiffer(s) && AllWhole(s, made)
    ensures PcOk(t, s', pc) && LinesDiffer(s') && AllWhole(s', made)
  {
    forall k | 0 <= k < LINE_SLOTS && s'.use[k] != Free ensures s'.y[k] == made[k].y && Whole(s', k, made[k].line) {
      assert Whole(s, k, made[k].line);
    }
  }

  lemma {:induction false} ReleaseKeeps(s: Slots, i: nat)
    requires Shape(s) && i < 2 && PostedAre(s) && ChannelsAre(s)
    ensures var r := Release(s, i);
            && Narrows(s, r) && PostedAre(r) && r.posted[i] == -1
            && r.chan == s.chan && r.posted[1 - i] == s.posted[1 - i]
            && forall k :: 0 <= k < LINE_SLOTS ==> (s.use[k] == Ready <==> r.use[k] == Ready)
  {
  }

  lemma {:induction false} PostKeeps(t: Timing, s: Slots, i: nat, v: nat)
    requires Timed(t) && Shape(s) && i < 2 && PostedAre(s) && s.posted[i] == -1 && ChannelIs(s, 1 - i)
    ensures var p := Post(t, s, i, v); Narrows(s, p) && PostedAre(p) && ChannelsAre(p)
  {
    hide PostedAre, ChannelIs, ChannelsAre, Narrows;
    var p := Post(t, s, i, v);
    if v < t.vBlank || FindReady(s.use, s.y, (v - t.vBlank) % 0x10000, 0) >= LINE_SLOTS {
      PostFixed(s, i, p.chan[i]);
    } else {
      PostSlot(s, i, FindReady(s.use, s.y, (v - t.vBlank) % 0x10000, 0));
    }
    BothChannels(p, i);
  }

  lemma {:induction false} PostFixed(s: Slots, i: nat, feed: Feed)
    requires Shape(s) && i < 2 && PostedAre(s) && s.posted[i] == -1 && ChannelIs(s, 1 - i) && !feed.Line?
    ensures var p := s.(chan := s.chan[i := feed]);
            Narrows(s, p) && PostedAre(p) && ChannelIs(p, i) && ChannelIs(p, 1 - i)
  {
  }

  lemma {:induction false} PostSlot(s: Slots, i: nat, k: nat)
    requires Shape(s) && i < 2 && PostedAre(s) && s.posted[i] == -1 && ChannelIs(s, 1 - i)
    requires k < LINE_SLOTS && s.use[k] == Ready
    ensures var p := s.(use := s.use[k := Posted], posted := s.posted[i := k], chan := s.chan[i := Line(s.y[k], k, s.len[k])]);
            Narrows(s, p) && PostedAre(p) && ChannelIs(p, i) && ChannelIs(p, 1 - i)
  {
  }

  lemma {:induction false} BothChannels(s: Slots, i: nat)
    requires Shape(s) && i < 2 && ChannelIs(s, i) && ChannelIs(s, 1 - i)
    ensures ChannelsAre(s)
  {
  }

  lemma {:induction false} InterruptGood(t: Timing, s: State)
    requires Timed(t) && Good(t, s)
    ensures Good(t, s.(sh := Interrupt(t, s.sh)))
    ensures Narrows(s.sh, Interrupt(t, s.sh))
  {
    hide Release, Post, LinesDiffer, AllWhole, PcOk;
    var i := Turn(s.sh);
    ReleaseKeeps(s.sh, i);
    var r := Release(s.sh, i);
    PostKeeps(t, r, i, s.sh.next);
    var p := Post(t, r, i, s.sh.next);
    var q := Interrupt(t, s.sh);
    InterruptIs(t, s.sh);
    NarrowsKeeps(t, s.sh, q, s.pc, s.made);
  }

  lemma {:induction false} InterruptIs(t: Timing, s: Slots)
    requires Shape(s)
    ensures var i := Turn(s); var p := Post(t, Release(s, i), i, s.next); var q := Interrupt(t, s);
            && q.use == p.use && q.y == p.y && q.len == p.len && q.words == p.words
            && q.posted == p.posted && q.chan == p.chan
            && q.pong == !s.pong && q.next == if s.next + 1 >= t.vTotal then 0 else s.next + 1
  {
    hide Release, Post;
  }

  /** Slot k has the line of scanline v ready. */
  predicate HasReady(t: Timing, s: Slots, v: nat, k: nat)
    requires Shape(s)
  {
    k < LINE_SLOTS && s.use[k] == Ready && s.y[k] + t.vBlank == v
  }

  lemma {:induction false} PostSends(t: Timing, s: Slots, i: nat, v: nat)
    requires Timed(t) && Shape(s) && i < 2 && v < t.vTotal && LinesDiffer(s)
    ensures var p := Post(t, s, i, v);
            && |p.chan| == 2 && p.chan[1 - i] == s.chan[1 - i]
            && (t.vsyncFirst <= v < t.vsyncEnd ==> p.chan[i] == VSync)
            && (v < t.vBlank && !(t.vsyncFirst <= v < t.vsyncEnd) ==> p.chan[i] == Blank)
            && (v >= t.vBlank && (forall k: nat :: !HasReady(t, s, v, k)) ==> p.chan[i] == Black)
    ensures forall k: nat :: HasReady(t, s, v, k) ==>
              var p := Post(t, s, i, v);
              |p.use| == LINE_SLOTS && p.chan[i] == Line(s.y[k], k, s.len[k]) && p.use[k] == Posted
  {
    if v >= t.vBlank {
      assert (v - t.vBlank) % 0x10000 == v - t.vBlank;
      var f := FindReady(s.use, s.y, v - t.vBlank, 0);
      if f < LINE_SLOTS { assert HasReady(t, s, v, f); }
    }
  }

  /** What one interrupt sends, as the scanline it serves demands: sync and blanking lines by their
      place in the frame; a line that is ready, whole, from the one slot that holds it; black exactly
      when no slot has the line ready. The other channel's line is left alone. */
  lemma {:induction false} InterruptSends(t: Timing, s: State)
    requires Timed(t) && Good(t, s)
    ensures var i, v, q := Turn(s.sh), s.sh.next, Interrupt(t, s.sh);
            && |q.chan| == 2 && q.chan[1 - i] == s.sh.chan[1 - i]
            && (t.vsyncFirst <= v < t.vsyncEnd ==> q.chan[i] == VSync)
            && (v < t.vBlank && !(t.vsyncFirst <= v < t.vsyncEnd) ==> q.chan[i] == Blank)
            && (v >= t.vBlank && (forall k: nat :: !HasReady(t, s.sh, v, k)) ==> q.chan[i] == Black)
    ensures forall k: nat :: HasReady(t, s.sh, s.sh.next, k) ==>
              var q := Interrupt(t, s.sh);
              && Shape(q) && q.chan[Turn(s.sh)] == Line(s.sh.next - t.vBlank, k, |s.made[k].line|)
              && q.use[k] == Posted && Whole(q, k, s.made[k].line) && s.made[k].y == s.sh.next - t.vBlank
  {
    hide PcOk, Post, Release, Interrupt, AllWhole, Whole, LinesDiffer, PostedAre, ChannelsAre;
    var i, v := Turn(s.sh), s.sh.next;
    ReleaseKeeps(s.sh, i);
    InterruptIs(t, s.sh);
    InterruptGood(t, s);
    var r, q := Release(s.sh, i), Interrupt(t, s.sh);
    NarrowsKeeps(t, s.sh, r, ReadNext, s.made);
    PostSends(t, r, i, v);
    SameReady(t, s.sh, r);
    forall k: nat | HasReady(t, s.sh, v, k)
      ensures q.chan[i] == Line(v - t.vBlank, k, |s.made[k].line|) && q.use[k] == Posted && Whole(q, k, s.made[k].line) && s.made[k].y == s.sh.next - t.vBlank
    {
      assert HasReady(t, r, v, k);
      WholeAt(s.sh, s.made, k);
      WholeAt(q, s.made, k);
    }
  }

  lemma {:induction false} SameReady(t: Timing, s: Slots, r: Slots)
    requires Shape(s) && Narrows(s, r)
    requires forall k :: 0 <= k < LINE_SLOTS ==> (s.use[k] == Ready <==> r.use[k] == Ready)
    ensures forall v: nat, k: nat :: HasReady(t, s, v, k) == HasReady(t, r, v, k)
    ensures r.len == s.len
  {
  }

  lemma {:induction false} WholeAt(s: Slots, made: seq<Built>, k: nat)
    requires Shape(s) && AllWhole(s, made) && k < LINE_SLOTS && s.use[k] != Free
    ensures |made| == LINE_SLOTS && s.y[k] == made[k].y && Whole(s, k, made[k].line) && s.len[k] == |made[k].line|
  {
  }

  // ---- core 1 keeps it -----------------------------------------------------------------------

  /** Core 1 leaves every slot that is in use alone: only the interrupt reads those. */
  ghost predicate InUseUntouched(s: Slots, s': Slots)
    requires Shape(s)
  {
    && Shape(s') && s'.posted == s.posted && s'.chan == s.chan && s'.next == s.next && s'.pong == s.pong
    && forall k :: 0 <= k < LINE_SLOTS && s.use[k] != Free ==>
         s'.y[k] == s.y[k] && s'.len[k] == s.len[k] && s'.words[k] == s.words[k]
  }

  /** Writing a slot that is free disturbs nothing but core 1's own place in its loop. */
  lemma {:induction false} FreeSlotWrite(s: Slots, s': Slots, k: nat, made: seq<Built>)
    requires Safe(s, made) && k < LINE_SLOTS && s.use[k] == Free
    requires Shape(s') && s'.use == s.use && s'.posted == s.posted && s'.chan == s.chan
    requires s'.next == s.next && s'.pong == s.pong
    requires forall j :: 0 <= j < LINE_SLOTS && j != k ==>
               s'.y[j] == s.y[j] && s'.len[j] == s.len[j] && s'.words[j] == s.words[j]
    ensures Safe(s', made) && InUseUntouched(s, s')
    ensures forall y, n: nat :: n <= LINE_SLOTS && Unheld(s, y, n) ==> Unheld(s', y, n)
  {
    forall j | 0 <= j < LINE_SLOTS && s'.use[j] != Free ensures s'.y[j] == made[j].y && Whole(s', j, made[j].line) {
      assert Whole(s, j, made[j].line);
    }
  }

  lemma {:induction false} FreeStaleKeeps(t: Timing, s: Slots, next: nat, made: seq<Built>)
    requires Timed(t) && Safe(s, made) && next < t.vTotal
    ensures Safe(FreeStale(t, s, next), made) && InUseUntouched(s, FreeStale(t, s, next))
    ensures Narrows(s, FreeStale(t, s, next))
  {
    hide AllWhole, LinesDiffer, Whole;
    FreeStaleFrame(t, s, next);
    NarrowsKeeps(t, s, FreeStale(t, s, next), ReadNext, made);
  }

  lemma {:induction false} FreeStaleFrame(t: Timing, s: Slots, next: nat)
    requires Timed(t) && Shape(s) && PostedAre(s) && ChannelsAre(s) && next < t.vTotal
    ensures var r := FreeStale(t, s, next);
            Narrows(s, r) && PostedAre(r) && ChannelsAre(r) && InUseUntouched(s, r)
  {
    hide Stale;
  }

  lemma {:induction false} ScanFromOk(t: Timing, s: Slots, next: nat, ahead: nat)
    requires Timed(t) && Shape(s) && next < t.vTotal && ahead <= LINE_SLOTS
    ensures PcOk(t, s, ScanFrom(t, next, ahead))
    decreases LINE_SLOTS - ahead
  {
    if ahead < LINE_SLOTS { ScanFromOk(t, s, next, ahead + 1); }
  }

  lemma {:induction false} ReadyKeeps(t: Timing, s: State)
    requires Timed(t) && Good(t, s) && s.pc.SetReady?
    ensures Good(t, CoreNext(t, s)) && InUseUntouched(s.sh, CoreNext(t, s).sh)
  {
    hide Whole, ChannelIs;
    var k, n := s.pc.slot, CoreNext(t, s);
    ChannelsKeep(s.sh, n.sh);
    forall j | 0 <= j < LINE_SLOTS && n.sh.use[j] != Free ensures n.sh.y[j] == n.made[j].y && Whole(n.sh, j, n.made[j].line) {
      if j == k { WholeKeeps(s.sh, n.sh, j, s.pc.line); }
      else { WholeAt(s.sh, s.made, j); WholeKeeps(s.sh, n.sh, j, s.made[j].line); }
    }
  }

  lemma {:induction false} WholeKeeps(s: Slots, s': Slots, k: nat, line: seq<nat>)
    requires Shape(s) && Shape(s') && k < LINE_SLOTS && Whole(s, k, line)
    requires s'.len[k] == s.len[k] && s'.words[k] == s.words[k]
    ensures Whole(s', k, line)
  {
  }

  lemma {:induction false} ChannelsKeep(s: Slots, s': Slots)
    requires Shape(s) && Shape(s') && s'.posted == s.posted && s'.chan == s.chan && s'.y == s.y && s'.len == s.len
    requires ChannelsAre(s)
    ensures ChannelsAre(s')
  {
  }

  lemma {:induction false} BuildKeeps(t: Timing, s: State)
    requires Timed(t) && Good(t, s) && (s.pc.Build? || s.pc.SetLen? || s.pc.SetY?)
    ensures Good(t, CoreNext(t, s)) && InUseUntouched(s.sh, CoreNext(t, s).sh)
  {
    hide AllWhole, LinesDiffer, ChannelIs, PostedAre, InUseUntouched;
    var n := CoreNext(t, s);
    FreeSlotWrite(s.sh, n.sh, s.pc.slot, s.made);
  }

  lemma {:induction false} LookKeeps(t: Timing, s: State)
    requires Timed(t) && Good(t, s)
    requires s.pc.ReadNext? || s.pc.Prune? || s.pc.Scan? || s.pc.Pick?
    ensures Good(t, CoreNext(t, s)) && InUseUntouched(s.sh, CoreNext(t, s).sh)
  {
    hide AllWhole, LinesDiffer, ChannelIs, PostedAre, FreeStale, ScanFrom, Wanted;
    match s.pc
    case Prune(next) =>
      FreeStaleKeeps(t, s.sh, next, s.made);
      ScanFromOk(t, FreeStale(t, s.sh, next), next, 0);
    case Scan(next, ahead, k) => ScanFromOk(t, s.sh, next, ahead + 1);
    case _ =>
  }

  lemma {:induction false} ScratchKeeps(t: Timing, s: State, i: nat, w: nat)
    requires Timed(t) && Good(t, s) && s.pc.Attempt? && i < LINE_WORDS
    ensures var n := s.(sh := PutWord(s.sh, s.pc.slot, i, w)); Good(t, n) && InUseUntouched(s.sh, n.sh)
  {
    hide AllWhole, LinesDiffer, ChannelIs, PostedAre, InUseUntouched;
    var n := s.(sh := PutWord(s.sh, s.pc.slot, i, w));
    FreeSlotWrite(s.sh, n.sh, s.pc.slot, s.made);
  }

  /** Every step of either party keeps the invariant, and core 1 writes free slots only. */
  lemma {:induction false} StepGood(t: Timing, s: State, step: Step)
    requires Timed(t) && Good(t, s) && Enabled(t, s, step)
    ensures Good(t, Next(t, s, step))
    ensures !step.Irq? ==> InUseUntouched(s.sh, Next(t, s, step).sh)
  {
    hide Safe, PcOk, Interrupt, CoreNext, PutWord, InUseUntouched;
    match step
    case Irq => InterruptGood(t, s);
    case Scratch(i, w) =>
      if i < LINE_WORDS { ScratchKeeps(t, s, i, w); } else { Same(s.sh, s.made); }
    case Decide(line) => DecideKeeps(t, s, line);
    case Core =>
      if s.pc.SetReady? { ReadyKeeps(t, s); }
      else if s.pc.Build? || s.pc.SetLen? || s.pc.SetY? { BuildKeeps(t, s); }
      else { LookKeeps(t, s); }
  }

  lemma {:induction false} Same(s: Slots, made: seq<Built>)
    requires Safe(s, made)
    ensures InUseUntouched(s, s)
  {
  }

  lemma {:induction false} DecideKeeps(t: Timing, s: State, line: seq<nat>)
    requires Timed(t) && Good(t, s) && s.pc.Attempt?
    ensures Good(t, Next(t, s, Decide(line))) && InUseUntouched(s.sh, Next(t, s, Decide(line)).sh)
  {
    hide AllWhole, LinesDiffer, ChannelIs, PostedAre;
  }

  // ---- whole runs ----------------------------------------------------------------------------

  /** The state after a schedule; a step that is not enabled when its turn comes does nothing. */
  ghost function After(t: Timing, s: State, steps: seq<Step>): (r: State)
    requires Timed(t) && Good(t, s)
    ensures Good(t, r)
  {
    if steps == [] then s
    else
      var p, step := After(t, s, steps[..|steps| - 1]), steps[|steps| - 1];
      if Enabled(t, p, step) then StepGood(t, p, step); Next(t, p, step) else p
  }

  /** From start-up, under every interleaving: the posted slots are the channels' own, no line is held
      twice, every slot in use holds a whole line, and core 1's next write, if any, is to a free slot. */
  lemma {:induction false} RunSafe(t: Timing, s: State, steps: seq<Step>)
    requires Timed(t) && Init(t, s)
    ensures Good(t, s) && Safe(After(t, s, steps).sh, After(t, s, steps).made)
    ensures var pc := After(t, s, steps).pc;
            (pc.Attempt? || pc.Build? || pc.SetLen? || pc.SetY? || pc.SetReady?) ==>
              pc.slot < LINE_SLOTS && After(t, s, steps).sh.use[pc.slot] == Free
  {
    hide Safe, Interrupt, After;
    InitGood(t, s);
    OwnsFree(t, After(t, s, steps));
  }

  lemma {:induction false} OwnsFree(t: Timing, s: State)
    requires Timed(t) && Good(t, s)
    ensures Safe(s.sh, s.made)
    ensures (s.pc.Attempt? || s.pc.Build? || s.pc.SetLen? || s.pc.SetY? || s.pc.SetReady?) ==>
              s.pc.slot < LINE_SLOTS && s.sh.use[s.pc.slot] == Free
  {
    hide Safe, AllWhole, LinesDiffer, ChannelIs, PostedAre, Whole;
  }

  /** No interrupt of channel i occurs in the schedule. */
  ghost predicate Quiet(t: Timing, s: State, steps: seq<Step>, i: nat)
    requires Timed(t) && Good(t, s)
  {
    forall j :: 0 <= j < |steps| && steps[j].Irq? ==> Turn(After(t, s, steps[..j]).sh) != i
  }

  /** Channel i is sending `line` from slot k. */
  ghost predicate Sending(s: Slots, i: nat, y: nat, k: nat, line: seq<nat>)
    requires Shape(s) && i < 2
  {
    s.chan[i] == Line(y, k, |line|) && k < LINE_SLOTS && s.posted[i] == k && s.use[k] == Posted && s.y[k] == y
    && Whole(s, k, line)
  }

  lemma {:induction false} StepUndisturbed(t: Timing, s: State, step: Step, i: nat, y: nat, k: nat, line: seq<nat>)
    requires Timed(t) && Good(t, s) && Enabled(t, s, step) && i < 2
    requires step.Irq? ==> Turn(s.sh) != i
    requires Sending(s.sh, i, y, k, line)
    ensures Good(t, Next(t, s, step)) && Sending(Next(t, s, step).sh, i, y, k, line)
  {
    hide PcOk, Interrupt, CoreNext, PutWord, AllWhole, LinesDiffer, Post, Release, Narrows;
    StepGood(t, s, step);
    var n := Next(t, s, step);
    if step.Irq? {
      InterruptSends(t, s);
      InterruptGood(t, s);
      SameData(s.sh, n.sh);
      PostedStays(t, s.sh, i);
    }
  }

  lemma {:induction false} SameData(s: Slots, r: Slots)
    requires Shape(s) && Narrows(s, r)
    ensures Shape(r) && r.y == s.y && r.len == s.len && r.words == s.words
  {
  }

  lemma {:induction false} PostedStays(t: Timing, s: Slots, i: nat)
    requires Shape(s) && i < 2 && i != Turn(s)
    ensures |Interrupt(t, s).posted| == 2 && Interrupt(t, s).posted[i] == s.posted[i]
  {
    InterruptIs(t, s);
  }

  /** A channel that has been given a line sends exactly that line: until the channel's own next
      interrupt nothing either party does changes its slot, its length or any of its words. */
  lemma {:induction false} LineUndisturbed(t: Timing, s: State, steps: seq<Step>, i: nat, y: nat, k: nat, line: seq<nat>)
    requires Timed(t) && Good(t, s) && i < 2 && Quiet(t, s, steps, i)
    requires Sending(s.sh, i, y, k, line)
    ensures Sending(After(t, s, steps).sh, i, y, k, line)
  {
    hide Good, Sending, Enabled, Next;
    if steps != [] {
      var n := |steps| - 1;
      QuietPrefix(t, s, steps, i);
      LineUndisturbed(t, s, steps[..n], i, y, k, line);
      var p := After(t, s, steps[..n]);
      if Enabled(t, p, steps[n]) { StepUndisturbed(t, p, steps[n], i, y, k, line); }
    }
  }

  lemma {:induction false} QuietPrefix(t: Timing, s: State, steps: seq<Step>, i: nat)
    requires Timed(t) && Good(t, s) && Quiet(t, s, steps, i) && steps != []
    ensures Quiet(t, s, steps[..|steps| - 1], i)
    ensures steps[|steps| - 1].Irq? ==> Turn(After(t, s, steps[..|steps| - 1]).sh) != i
  {
    hide After, Good, Turn;
    var pre := steps[..|steps| - 1];
    forall j | 0 <= j < |pre| && pre[j].Irq? ensures Turn(After(t, s, pre[..j]).sh) != i {
      assert pre[..j] == steps[..j];
    }
  }
}
