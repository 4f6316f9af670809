/** The line pool shared by its two users: core 0 allocates, fills and commits lines; core 1
    publishes the range it is reading (linepool_reader_begin / linepool_reader_done). Every access
    the two make to shared state is one step, and the steps interleave arbitrarily. */
module PoolRun {
  import opened Prelude
  import opened RingLayout

  /** Where the writer is between linepool_alloc and the commit. guard_wait reads reader_len and
      then reader_off in two separate steps. */
  datatype Writer =
    | Idle
    | GuardLen(off: nat, m: nat)
    | GuardOff(off: nat, m: nat, rl: nat)
    | Writing(off: nat, m: nat)

  /** `next` is the line the renderer commits next. The last three fields are history: the live
      lines oldest first, the bytes each line was committed with, and the bytes the reader saw when
      it published its range. */
  datatype State = State(ring: Ring, mem: seq<Byte>, next: nat, w: Writer, rOff: nat, rLen: nat,
                         q: seq<nat>, content: seq<seq<Byte>>, snap: seq<Byte>)

  datatype Step =
    | StartAlloc(maxLen: nat)
    | ReadLen
    | ReadOff
    | Store(i: nat, b: Byte)
    | Publish(len: nat)
    | PublishDup
    | ReaderBegin(y: nat)
    | ReaderDone

  ghost predicate Init(s: State) {
    && s.ring.size > 0 && |s.ring.line| > 0 && s.ring == RingLayout.Init(s.ring.size, |s.ring.line|)
    && |s.mem| == s.ring.size && s.next == 0 && s.w == Idle && s.rLen == 0
    && s.q == [] && s.content == seq(|s.ring.line|, _ => []) && s.snap == []
  }

  predicate Enabled(s: State, step: Step) {
    && s.next < |s.ring.line|
    && |s.content| == |s.ring.line|
    && match step
       case StartAlloc(_) => s.w.Idle?
       case ReadLen => s.w.GuardLen?
       case ReadOff => s.w.GuardOff?
       case Store(i, _) => s.w.Writing? && s.w.off <= i < s.w.off + s.w.m && i < |s.mem|
       case Publish(len) => s.w.Writing? && 0 < len <= s.w.m && s.w.off + len <= |s.mem|
       case PublishDup => s.w.Idle? || s.w.Writing?
       case ReaderBegin(y) => y < |s.ring.line| && s.ring.line[y].off + s.ring.line[y].len <= |s.mem|
       case ReaderDone => true
  }

  function Next(s: State, step: Step): State
    requires Enabled(s, step)
  {
    match step
    case StartAlloc(maxLen) =>
      var (r, a) := Alloc(s.ring, maxLen);
      s.(ring := r, w := if a.Some? then GuardLen(a.value, if maxLen == 0 then 1 else maxLen) else Idle)
    case ReadLen =>
      s.(w := if s.rLen == 0 then Writing(s.w.off, s.w.m) else GuardOff(s.w.off, s.w.m, s.rLen))
    case ReadOff =>
      s.(w := if s.w.off + s.w.m <= s.rOff || s.rOff + s.w.rl <= s.w.off
              then Writing(s.w.off, s.w.m) else GuardLen(s.w.off, s.w.m))
    case Store(i, b) =>
      s.(mem := s.mem[i := b])
    case Publish(len) =>
      s.(ring := Commit(s.ring, s.next, s.w.off, len), w := Idle, next := NextLine(|s.ring.line|, s.next),
         q := Survivors(s.next, s.q) + [s.next],
         content := s.content[s.next := s.mem[s.w.off..s.w.off + len]])
    case PublishDup =>
      s.(ring := CommitDup(s.ring, s.next), w := Idle, next := NextLine(|s.ring.line|, s.next),
         q := Survivors(s.next, s.q), content := s.content[s.next := []])
    case ReaderBegin(y) =>
      var l := s.ring.line[y];
      s.(rOff := l.off, rLen := l.len, snap := s.mem[l.off..l.off + l.len])
    case ReaderDone =>
      s.(rLen := 0, snap := [])
  }

  /** Bytes [off, off+len) of the pool hold `bytes`. */
  ghost predicate Holds(mem: seq<Byte>, off: nat, len: nat, bytes: seq<Byte>) {
    off + len <= |mem| && mem[off..off + len] == bytes
  }

  ghost predicate LinesHold(line: seq<Ref>, mem: seq<Byte>, content: seq<seq<Byte>>) {
    && |content| == |line|
    && forall i :: 0 <= i < |line| ==> Holds(mem, line[i].off, line[i].len, content[i])
  }

  ghost predicate WriterOk(s: State) {
    !s.w.Idle? ==>
      && s.w.m > 0 && s.w.off == s.ring.head && s.w.off + s.w.m <= s.ring.size
      && Room(s.ring.size, s.ring.head, s.ring.tail, s.w.m)
      && Clear(s.ring.line, s.w.off, s.w.m)
  }

  ghost predicate ReaderOk(s: State) {
    && (s.rLen > 0 ==> Holds(s.mem, s.rOff, s.rLen, s.snap))
    && (s.w.GuardOff? ==> Disjoint(s.w.off, s.w.m, s.rOff, s.rLen) || s.w.rl == s.rLen)
    && (s.w.Writing? ==> Disjoint(s.w.off, s.w.m, s.rOff, s.rLen))
  }

  /** What every reachable state satisfies. */
  ghost predicate Safe(s: State) {
    && Inv(s.ring, s.next, s.q)
    && |s.mem| == s.ring.size
    && LinesHold(s.ring.line, s.mem, s.content)
    && WriterOk(s)
    && ReaderOk(s)
  }

  lemma {:induction false} InitSafe(s: State)
    requires Init(s)
    ensures Safe(s)
  {
    InitInv(s.ring.size, |s.ring.line|);
  }

  lemma {:induction false} StoreKeeps(mem: seq<Byte>, i: nat, b: Byte, off: nat, len: nat, bytes: seq<Byte>)
    requires i < |mem| && Holds(mem, off, len, bytes) && !(off <= i < off + len)
    ensures Holds(mem[i := b], off, len, bytes)
  {
  }

  lemma {:induction false} StoreSafe(s: State, i: nat, b: Byte)
    requires Safe(s) && Enabled(s, Store(i, b))
    ensures Safe(Next(s, Store(i, b)))
  {
    hide RingLayout.Inv;
    var s' := Next(s, Store(i, b));
    forall k | 0 <= k < |s.ring.line|
      ensures Holds(s'.mem, s.ring.line[k].off, s.ring.line[k].len, s.content[k])
    {
      var l := s.ring.line[k];
      assert Disjoint(s.w.off, s.w.m, l.off, l.len);
      StoreKeeps(s.mem, i, b, l.off, l.len, s.content[k]);
    }
    if s.rLen > 0 { StoreKeeps(s.mem, i, b, s.rOff, s.rLen, s.snap); }
  }

  lemma {:induction false} PublishSafe(s: State, len: nat)
    requires Safe(s) && Enabled(s, Publish(len))
    ensures Safe(Next(s, Publish(len)))
  {
    hide RingLayout.Inv, RingLayout.Commit;
    CommitInv(s.ring, s.next, s.q, len);
    CommitLines(s.ring, s.next, s.w.off, len);
    LinesUpdate(s, Ref(s.w.off, len, false), s.mem[s.w.off..s.w.off + len]);
  }

  lemma {:induction false} LinesUpdate(s: State, l: Ref, bytes: seq<Byte>)
    requires LinesHold(s.ring.line, s.mem, s.content) && s.next < |s.ring.line|
    requires Holds(s.mem, l.off, l.len, bytes)
    ensures LinesHold(s.ring.line[s.next := l], s.mem, s.content[s.next := bytes])
  {
  }

  lemma {:induction false} PublishDupSafe(s: State)
    requires Safe(s) && Enabled(s, PublishDup)
    ensures Safe(Next(s, PublishDup))
  {
    hide RingLayout.Inv, RingLayout.CommitDup;
    CommitDupInv(s.ring, s.next, s.q);
    CommitLines(s.ring, s.next, 0, 0);
    LinesUpdate(s, Ref(0, 0, true), []);
  }

  lemma {:induction false} StartAllocSafe(s: State, m: nat)
    requires Safe(s) && Enabled(s, StartAlloc(m))
    ensures Safe(Next(s, StartAlloc(m)))
  {
    hide RingLayout.Inv;
    var m1 := if m == 0 then 1 else m;
    assert Alloc(s.ring, m) == Alloc(s.ring, m1);
    AllocInv(s.ring, s.next, s.q, m1);
  }

  lemma {:induction false} ReaderSafe(s: State, step: Step)
    requires Safe(s) && Enabled(s, step) && (step.ReadLen? || step.ReadOff? || step.ReaderBegin? || step.ReaderDone?)
    ensures Safe(Next(s, step))
  {
    hide RingLayout.Inv;
    if step.ReaderBegin? {
      assert Holds(s.mem, s.ring.line[step.y].off, s.ring.line[step.y].len, s.content[step.y]);
    }
  }

  lemma {:induction false} StepSafe(s: State, step: Step)
    requires Safe(s) && Enabled(s, step)
    ensures Safe(Next(s, step))
  {
    match step
    case StartAlloc(m) => StartAllocSafe(s, m);
    case Store(i, b) => StoreSafe(s, i, b);
    case Publish(len) => PublishSafe(s, len);
    case PublishDup => PublishDupSafe(s);
    case _ => ReaderSafe(s, step);
  }

  /** A run: states joined by enabled steps, from an empty pool. */
  ghost predicate Run(states: seq<State>, steps: seq<Step>) {
    && |states| == |steps| + 1 && Init(states[0])
    && forall i :: 0 <= i < |steps| ==> Enabled(states[i], steps[i]) && states[i + 1] == Next(states[i], steps[i])
  }

  /** Every state of every run is safe. */
  lemma {:induction false} RunSafe(states: seq<State>, steps: seq<Step>, k: nat)
    requires Run(states, steps) && k <= |steps|
    ensures Safe(states[k])
  {
    if k == 0 {
      InitSafe(states[0]);
    } else {
      RunSafe(states, steps, k - 1);
      StepSafe(states[k - 1], steps[k - 1]);
    }
  }

  /** The reader never sees a byte of its published range change: whatever steps happen between a
      ReaderBegin and the matching ReaderDone, the bytes stay those it published. */
  lemma {:induction false} ReaderUndisturbed(states: seq<State>, steps: seq<Step>, from: nat, k: nat)
    requires Run(states, steps) && from < k <= |steps|
    requires steps[from].ReaderBegin?
    requires forall i :: from < i < k ==> !steps[i].ReaderBegin? && !steps[i].ReaderDone?
    ensures var l := states[from].ring.line[steps[from].y];
            && states[k].rOff == l.off && states[k].rLen == l.len
            && (l.len > 0 ==> Holds(states[k].mem, l.off, l.len, states[from].content[steps[from].y]))
  {
    RunSafe(states, steps, k);
    RunSafe(states, steps, from);
    var y := steps[from].y;
    assert Holds(states[from].mem, states[from].ring.line[y].off, states[from].ring.line[y].len, states[from].content[y]);
    ReaderFixed(states, steps, from, k);
  }

  lemma {:induction false} ReaderFixed(states: seq<State>, steps: seq<Step>, from: nat, k: nat)
    requires Run(states, steps) && from < k <= |steps|
    requires forall i :: from < i < k ==> !steps[i].ReaderBegin? && !steps[i].ReaderDone?
    ensures states[k].rOff == states[from + 1].rOff && states[k].rLen == states[from + 1].rLen
    ensures states[k].snap == states[from + 1].snap
  {
    if k > from + 1 { ReaderFixed(states, steps, from, k - 1); }
  }

  /** A line keeps the bytes it was committed with until it is itself committed again. */
  lemma {:induction false} LineKeepsBytes(states: seq<State>, steps: seq<Step>, from: nat, k: nat, y: nat)
    requires Run(states, steps) && from < k <= |steps| && y == states[from].next
    requires steps[from].Publish?
    requires forall i :: from < i < k && (steps[i].Publish? || steps[i].PublishDup?) ==> states[i].next != y
    ensures y < |states[k].ring.line| && !states[k].ring.line[y].dup
    ensures var (w, len) := (states[from].w, steps[from].len);
            Holds(states[k].mem, states[k].ring.line[y].off, states[k].ring.line[y].len, states[from].mem[w.off..w.off + len])
  {
    hide RingLayout.Inv, Safe;
    RunSafe(states, steps, from);
    PublishPuts(states[from], steps[from].len);
    LineFixed(states, steps, from + 1, k, y);
    RunSafe(states, steps, k);
    LineHolds(states[k], y);
  }

  lemma {:induction false} PublishPuts(s: State, len: nat)
    requires Safe(s) && Enabled(s, Publish(len))
    ensures var s' := Next(s, Publish(len));
            && |s'.content| == |s'.ring.line| && s.next < |s'.content|
            && s'.ring.line[s.next] == Ref(s.w.off, len, false)
            && s'.content[s.next] == s.mem[s.w.off..s.w.off + len]
  {
    hide Next, Enabled, Safe;
    StepLines(s, Publish(len));
    PublishedLine(s, len);
  }

  lemma PublishedLine(s: State, len: nat)
    requires Safe(s) && Enabled(s, Publish(len))
    ensures s.next < |s.ring.line| == |s.content| && s.w.Writing? && s.w.off + len <= |s.mem| && len > 0
    ensures Next(s, Publish(len)).content == s.content[s.next := s.mem[s.w.off..s.w.off + len]]
  {
    hide RingLayout.Inv, Commit;
  }

  lemma {:induction false} LineHolds(s: State, y: nat)
    requires Safe(s) && y < |s.ring.line|
    ensures Holds(s.mem, s.ring.line[y].off, s.ring.line[y].len, s.content[y])
  {
  }

  lemma {:induction false} LineFixed(states: seq<State>, steps: seq<Step>, from: nat, k: nat, y: nat)
    requires Run(states, steps) && from <= k <= |steps| && y < |states[from].ring.line| == |states[from].content|
    requires forall i :: from <= i < k && (steps[i].Publish? || steps[i].PublishDup?) ==> states[i].next != y
    ensures |states[k].content| == |states[k].ring.line| == |states[from].ring.line|
    ensures states[k].ring.line[y] == states[from].ring.line[y]
    ensures states[k].content[y] == states[from].content[y]
  {
    hide RingLayout.Inv, Safe;
    if k > from {
      LineFixed(states, steps, from, k - 1, y);
      RunSafe(states, steps, k - 1);
      LineStays(states[k - 1], steps[k - 1], y);
    }
  }

  lemma {:induction false} LineStays(s: State, step: Step, y: nat)
    requires Safe(s) && Enabled(s, step) && y < |s.ring.line|
    requires step.Publish? || step.PublishDup? ==> s.next != y
    ensures var s' := Next(s, step);
            && |s'.content| == |s'.ring.line| == |s.ring.line|
            && s'.ring.line[y] == s.ring.line[y] && s'.content[y] == s.content[y]
  {
    hide RingLayout.Inv;
    StepLines(s, step);
  }

  /** Only a commit changes the line table, and only the entry it commits. */
  lemma {:induction false} StepLines(s: State, step: Step)
    requires Safe(s) && Enabled(s, step)
    ensures Next(s, step).ring.line ==
            match step
            case Publish(len) => s.ring.line[s.next := Ref(s.w.off, len, false)]
            case PublishDup => s.ring.line[s.next := Ref(0, 0, true)]
            case _ => s.ring.line
  {
    match step
    case Publish(len) => CommitLines(s.ring, s.next, s.w.off, len);
    case PublishDup => CommitLines(s.ring, s.next, 0, 0);
    case StartAlloc(m) => AllocInv(s.ring, s.next, s.q, m);
    case _ =>
  }

  /** Published lines never overlap and all lie inside the pool. */
  lemma {:induction false} PublishedDisjoint(s: State, i: nat, j: nat)
    requires Safe(s) && i < |s.ring.line| && j < |s.ring.line| && i != j
    ensures Disjoint(s.ring.line[i].off, s.ring.line[i].len, s.ring.line[j].off, s.ring.line[j].len)
    ensures End(s.ring.line[i]) <= s.ring.size
  {
    var line, refs := s.ring.line, Refs(s.ring.line, s.q);
    assert Holds(s.mem, line[i].off, line[i].len, s.content[i]);
    if line[i].len > 0 && line[j].len > 0 {
      var k :| 0 <= k < |s.q| && s.q[k] == i;
      var l :| 0 <= l < |s.q| && s.q[l] == j;
      if k < l {
        LayoutDisjoint(s.ring.size, s.ring.head, s.ring.tail, s.ring.live, refs, k, l);
      } else {
        LayoutDisjoint(s.ring.size, s.ring.head, s.ring.tail, s.ring.live, refs, l, k);
      }
    }
  }

  /** The wait of linepool_alloc ends: at once when the reader is idle, and otherwise exactly when what is
      published does not overlap what was allocated. */
  lemma GuardEnds(s: State)
    requires Enabled(s, ReadLen) && s.w.m > 0
    ensures var t := Next(s, ReadLen);
            && (s.rLen > 0 ==> Enabled(t, ReadOff))
            && (if s.rLen > 0 then Next(t, ReadOff) else t).w
               == if Disjoint(s.w.off, s.w.m, s.rOff, s.rLen) then Writing(s.w.off, s.w.m) else s.w
  {
  }

  /** No step of either party waits for anything but the guard: the reader may begin any line and be done at
      any time, the writer may start, store anywhere in what it was given, and commit any part of it. */
  lemma {:induction false} NeverHeld(s: State, y: nat, i: nat, len: nat)
    requires Safe(s)
    ensures Enabled(s, ReaderDone) && (y < |s.ring.line| ==> Enabled(s, ReaderBegin(y)))
    ensures s.w.Idle? ==> forall m: nat :: Enabled(s, StartAlloc(m))
    ensures s.w.Idle? || s.w.Writing? ==> Enabled(s, PublishDup)
    ensures s.w.Writing? && s.w.off <= i < s.w.off + s.w.m ==> forall b: Byte :: Enabled(s, Store(i, b))
    ensures s.w.Writing? && 0 < len <= s.w.m ==> Enabled(s, Publish(len))
  {
    if y < |s.ring.line| { LineHolds(s, y); }
    NextInside(s);
    hide RingLayout.Inv, LinesHold, ReaderOk;
  }

  lemma NextInside(s: State)
    requires Safe(s)
    ensures s.next < |s.ring.line| == |s.content|
  {
    hide WriterOk, ReaderOk;
  }
}
