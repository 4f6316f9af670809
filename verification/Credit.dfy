/** Credit flow control between the host and the modem, two programs joined by two FIFO channels. The
    modem's body loop and its message handler are separate tasks: the loop's `credit -= n` is a load
    and a store, and the handler, which has the higher priority, can run between them. */
module Credit {
  import opened Prelude

  const WINDOW := 8192
  const REFILL := 4096
  const BODY_CHUNK := 1023

  /** Messages to the modem, and to the host. Requests are numbered in the order they are made. */
  datatype Down = Get(id: nat) | Grant(id: nat, n: nat) | Cancel(id: nat)
  datatype Up = Body(id: nat, n: nat) | Finished(id: nat)

  /** The modem's body loop: at its top, about to read, n bytes read, credit loaded, credit stored. */
  datatype Task = Loop | Ready | Taken(n: nat) | Loaded(n: nat, tmp: nat) | Stored(n: nat)

  datatype Host = Host(id: nat, active: bool, unacked: nat)

  datatype Modem = Modem(queued: Option<nat>, active: bool, id: nat, credit: nat, cancelled: bool, task: Task)

  /** Two histories of the host's current request: credit overwritten by the loop's store, and whether
      the modem has finished with the request or refused it. */
  datatype State = State(host: Host, modem: Modem, down: seq<Down>, up: seq<Up>, lost: nat, over: bool)

  datatype Step =
    | HostGet(room: bool)
    | HostReceive(keep: bool, room: bool)
    | HostPoll(room: bool)
    | HostCancel(room: bool)
    | ModemReceive(refuse: bool)
    | ModemStart
    | ModemAbort
    | ModemLook
    | ModemRead
    | ModemTake(n: nat)
    | ModemLoad
    | ModemStore
    | ModemSend
    | ModemEnd

  predicate Enabled(s: State, step: Step) {
    match step
    case HostGet(_) => !s.host.active
    case HostReceive(_, _) => s.up != []
    case HostPoll(_) => s.host.active && s.host.unacked >= REFILL
    case HostCancel(_) => s.host.active
    case ModemReceive(_) => s.down != []
    case ModemStart => !s.modem.active && s.modem.queued.Some?
    case ModemAbort => true
    case ModemLook => s.modem.active && s.modem.task.Loop? && !s.modem.cancelled && s.modem.credit > 0
    case ModemRead => s.modem.active && s.modem.task.Ready?
    case ModemTake(n) => s.modem.active && s.modem.task.Ready? && 0 < n <= BODY_CHUNK && n <= s.modem.credit
    case ModemLoad => s.modem.active && s.modem.task.Taken?
    case ModemStore => s.modem.active && s.modem.task.Loaded? && s.modem.task.n <= s.modem.task.tmp
    case ModemSend => s.modem.active && s.modem.task.Stored?
    case ModemEnd => s.modem.active
  }

  /** http_get: a new request takes the next number, even if the ring has no room for its message. */
  function Ask(h: Host, room: bool): (r: (Host, seq<Down>)) {
    if room then (Host(h.id + 1, true, 0), [Get(h.id + 1)]) else (h.(id := h.id + 1), [])
  }

  /** grant_flush: the whole of what is owed, if the transmit ring has room for the message. */
  function Pay(h: Host, room: bool): (r: (Host, seq<Down>)) {
    if room then (h.(unacked := 0), [Grant(h.id, h.unacked)]) else (h, [])
  }

  /** http_modem_on_message; `keep` is the sink's answer to a chunk. */
  function OnMessage(h: Host, m: Up, keep: bool, room: bool): (r: (Host, seq<Down>)) {
    if !h.active || m.id != h.id then (h, [])
    else match m
      case Finished(_) => (h.(active := false), [])
      case Body(_, n) =>
        if !keep then (h.(active := false), if room then [Cancel(h.id)] else [])
        else
          var g := h.(unacked := h.unacked + n);
          if g.unacked >= REFILL then Pay(g, room) else (g, [])
  }

  function Flush(s: State, room: bool): State {
    s.(host := Pay(s.host, room).0, down := s.down + Pay(s.host, room).1)
  }

  function Receive(s: State, keep: bool, room: bool): State
    requires s.up != []
  {
    var (h, sent) := OnMessage(s.host, s.up[0], keep, room);
    s.(host := h, down := s.down + sent, up := s.up[1..])
  }

  /** The modem's message handler. A request is refused while another waits, or for a reason of the
      modem's own: no network, a URL too long. */
  function Handle(s: State, refuse: bool): State
    requires s.down != []
  {
    var m, t := s.down[0], s.(down := s.down[1..]);
    match m
    case Get(id) =>
      if t.modem.queued == None && !refuse then t.(modem := t.modem.(queued := Some(id)))
      else t.(up := t.up + [Finished(id)], over := t.over || id == t.host.id)
    case Grant(id, n) =>
      if t.modem.active && id == t.modem.id then t.(modem := t.modem.(credit := t.modem.credit + n))
      else t
    case Cancel(id) =>
      if t.modem.active && id == t.modem.id then t.(modem := t.modem.(cancelled := true)) else t
  }

  function Next(s: State, step: Step): State
    requires Enabled(s, step)
  {
    match step
    case HostGet(room) => s.(host := Ask(s.host, room).0, down := s.down + Ask(s.host, room).1, lost := 0, over := false)
    case HostReceive(keep, room) => Receive(s, keep, room)
    case HostPoll(room) => Flush(s, room)
    case HostCancel(room) => s.(down := s.down + if room then [Cancel(s.host.id)] else [], host := s.host.(active := false))
    case ModemReceive(refuse) => Handle(s, refuse)
    case ModemStart => s.(modem := Modem(None, true, s.modem.queued.value, WINDOW, false, Loop))
    case ModemAbort => s.(modem := s.modem.(cancelled := true))
    case ModemLook => s.(modem := s.modem.(task := Ready))
    case ModemRead => s.(modem := s.modem.(task := Loop))
    case ModemTake(n) => s.(modem := s.modem.(task := Taken(n)))
    case ModemLoad => s.(modem := s.modem.(task := Loaded(s.modem.task.n, s.modem.credit)))
    case ModemStore =>
      var t := s.modem.task;
      s.(modem := s.modem.(credit := t.tmp - t.n, task := Stored(t.n)),
         lost := if s.modem.id == s.host.id && s.modem.credit > t.tmp then s.lost + (s.modem.credit - t.tmp) else s.lost)
    case ModemSend => s.(up := s.up + [Body(s.modem.id, s.modem.task.n)], modem := s.modem.(task := Loop))
    case ModemEnd =>
      s.(up := s.up + [Finished(s.modem.id)], modem := s.modem.(active := false, task := Loop),
         over := s.over || s.modem.id == s.host.id)
  }

  // ---- conservation --------------------------------------------------------------------------

  /** Credit on its way to the modem for request r; a Get carries the first window. */
  function Granted(down: seq<Down>, r: nat): nat {
    if down == [] then 0
    else Granted(down[1..], r) + match down[0]
                                 case Get(id) => if id == r then WINDOW else 0
                                 case Grant(id, n) => if id == r then n else 0
                                 case Cancel(_) => 0
  }

  /** Body bytes of request r on their way to the host. */
  function Carried(up: seq<Up>, r: nat): nat {
    if up == [] then 0 else Carried(up[1..], r) + if up[0].Body? && up[0].id == r then up[0].n else 0
  }

  /** What the modem holds for request r: its credit, and a chunk it has paid for but not sent. */
  function Held(m: Modem, r: nat): nat {
    (if m.queued == Some(r) then WINDOW else 0)
    + if m.active && m.id == r then m.credit + if m.task.Stored? then m.task.n else 0 else 0
  }

  ghost predicate Conserved(s: State) {
    s.host.active && !s.over ==>
      Held(s.modem, s.host.id) + Carried(s.up, s.host.id) + s.host.unacked + Granted(s.down, s.host.id) + s.lost == WINDOW
  }

  /** Nothing anywhere is for a request not made yet. */
  ghost predicate Known(s: State) {
    && (forall i :: 0 <= i < |s.down| ==> s.down[i].id <= s.host.id)
    && (forall i :: 0 <= i < |s.up| ==> s.up[i].id <= s.host.id)
    && (s.modem.queued.Some? ==> s.modem.queued.value <= s.host.id)
    && (s.modem.active ==> s.modem.id <= s.host.id)
  }

  /** The loop never spends credit it does not have. */
  ghost predicate Paid(m: Modem) {
    && (m.task.Taken? ==> m.task.n <= m.credit)
    && (m.task.Loaded? ==> m.task.n <= m.task.tmp <= m.credit)
  }

  /** A request the modem has not finished with is on its way to it, waiting, or being served. */
  ghost predicate Placed(s: State) {
    s.host.active && !s.over ==>
      if s.modem.active && s.modem.id == s.host.id then s.modem.queued != Some(s.host.id) && Get(s.host.id) !in s.down
      else Get(s.host.id) in s.down || s.modem.queued == Some(s.host.id)
  }

  ghost predicate Positive(down: seq<Down>) {
    forall i :: 0 <= i < |down| && down[i].Grant? ==> down[i].n > 0
  }

  ghost predicate Inv(s: State) {
    Conserved(s) && Known(s) && Paid(s.modem) && Placed(s) && Positive(s.down)
  }

  ghost predicate Init(s: State) {
    s.host == Host(0, false, 0) && s.modem == Modem(None, false, 0, 0, false, Loop) && s.down == [] && s.up == []
  }

  lemma {:induction false} InitInv(s: State)
    requires Init(s)
    ensures Inv(s)
  {
  }

  lemma {:induction false} GrantedJoin(a: seq<Down>, b: seq<Down>, r: nat)
    ensures Granted(a + b, r) == Granted(a, r) + Granted(b, r)
  {
    if a == [] {
      assert a + b == b;
    } else {
      assert (a + b)[1..] == a[1..] + b;
      GrantedJoin(a[1..], b, r);
    }
  }

  lemma {:induction false} CarriedJoin(a: seq<Up>, b: seq<Up>, r: nat)
    ensures Carried(a + b, r) == Carried(a, r) + Carried(b, r)
  {
    if a == [] {
      assert a + b == b;
    } else {
      assert (a + b)[1..] == a[1..] + b;
      CarriedJoin(a[1..], b, r);
    }
  }

  lemma {:induction false} GrantedOne(m: Down, r: nat)
    ensures Granted([m], r) == match m
                               case Get(id) => if id == r then WINDOW else 0
                               case Grant(id, n) => if id == r then n else 0
                               case Cancel(_) => 0
  {
    assert [m][1..] == [];
  }

  lemma {:induction false} CarriedOne(m: Up, r: nat)
    ensures Carried([m], r) == if m.Body? && m.id == r then m.n else 0
  {
    assert [m][1..] == [];
  }

  /** A new request starts from nothing: no older message is for it. */
  lemma {:induction false} NothingYet(down: seq<Down>, up: seq<Up>, r: nat)
    requires (forall i :: 0 <= i < |down| ==> down[i].id < r) && (forall i :: 0 <= i < |up| ==> up[i].id < r)
    ensures Granted(down, r) == 0 && Carried(up, r) == 0
    decreases |down| + |up|
  {
    if down != [] { NothingYet(down[1..], up, r); }
    else if up != [] { NothingYet(down, up[1..], r); }
  }

  lemma {:induction false} GetInv(s: State, room: bool)
    requires Inv(s) && Enabled(s, HostGet(room))
    ensures Inv(Next(s, HostGet(room)))
  {
    hide Granted, Carried;
    var r := s.host.id + 1;
    NothingYet(s.down, s.up, r);
    GrantedJoin(s.down, [Get(r)], r);
    GrantedOne(Get(r), r);
    assert s.down + [] == s.down;
  }

  lemma {:induction false} FlushInv(s: State, room: bool)
    requires Inv(s) && s.host.unacked >= REFILL
    ensures Inv(Flush(s, room))
  {
    hide Granted, Carried, Held;
    var m := Grant(s.host.id, s.host.unacked);
    GrantedJoin(s.down, [m], s.host.id);
    GrantedOne(m, s.host.id);
    assert s.down + [] == s.down;
  }

  lemma {:induction false} ReceiveInv(s: State, keep: bool, room: bool)
    requires Inv(s) && s.up != []
    ensures Inv(Receive(s, keep, room))
  {
    hide Granted, Held;
    var m, t := s.up[0], s.(up := s.up[1..]);
    assert s.down + [] == s.down;
    if s.host.active && m.id == s.host.id && m.Body? && keep {
      var g := t.(host := t.host.(unacked := t.host.unacked + m.n));
      if g.host.unacked >= REFILL { FlushInv(g, room); }
    }
  }

  /** While credit for the request is in a grant, the request is being served: it cannot still be
      waiting to start, which would make more than a window. */
  lemma {:induction false} GrantServed(s: State)
    requires Inv(s) && s.down != [] && s.down[0].Grant? && s.down[0].id == s.host.id && s.host.active && !s.over
    ensures s.modem.active && s.modem.id == s.host.id
  {
    hide Known, Paid;
    if Get(s.host.id) in s.down {
      assert Get(s.host.id) in s.down[1..];
      GetGrants(s.down[1..], s.host.id);
    }
  }

  lemma {:induction false} GetGrants(down: seq<Down>, r: nat)
    requires Get(r) in down
    ensures Granted(down, r) >= WINDOW
  {
    if down[0] != Get(r) { GetGrants(down[1..], r); }
  }

  lemma {:induction false} HandleInv(s: State, refuse: bool)
    requires Inv(s) && s.down != []
    ensures Inv(Handle(s, refuse))
  {
    hide Inv, Handle;
    match s.down[0]
    case Get(id) => HandleGetInv(s, refuse);
    case _ => HandleGrantInv(s, refuse);
  }

  lemma {:induction false} HandleGetInv(s: State, refuse: bool)
    requires Inv(s) && s.down != [] && s.down[0].Get?
    ensures Inv(Handle(s, refuse))
  {
    hide Carried;
    var id := s.down[0].id;
    RefuseInv(s, id);
    if id == s.host.id && Get(id) in s.down[1..] { GetGrants(s.down[1..], id); }
    RestIn(s.down, s.host.id);
  }

  lemma {:induction false} HandleGrantInv(s: State, refuse: bool)
    requires Inv(s) && s.down != [] && !s.down[0].Get?
    ensures Inv(Handle(s, refuse))
  {
    hide Carried;
    var m := s.down[0];
    if m.Grant? && m.id == s.host.id && s.host.active && !s.over { GrantServed(s); }
    RestIn(s.down, s.host.id);
  }

  lemma {:induction false} RestIn(down: seq<Down>, r: nat)
    requires down != []
    ensures Get(r) in down[1..] ==> Get(r) in down
    ensures Get(r) in down && down[0] != Get(r) ==> Get(r) in down[1..]
  {
    assert down == [down[0]] + down[1..];
  }

  lemma {:induction false} RefuseInv(s: State, id: nat)
    ensures Carried(s.up + [Finished(id)], s.host.id) == Carried(s.up, s.host.id)
  {
    CarriedJoin(s.up, [Finished(id)], s.host.id);
    CarriedOne(Finished(id), s.host.id);
  }

  lemma {:induction false} CancelInv(s: State, room: bool)
    requires Inv(s) && s.host.active
    ensures Inv(Next(s, HostCancel(room)))
  {
    hide Granted, Carried;
  }

  lemma {:induction false} TaskInv(s: State, step: Step)
    requires Inv(s) && Enabled(s, step)
    requires step.ModemAbort? || step.ModemLook? || step.ModemRead? || step.ModemTake? || step.ModemLoad? || step.ModemStore?
    ensures Inv(Next(s, step))
  {
    hide Granted, Carried;
  }

  lemma {:induction false} StartInv(s: State)
    requires Inv(s) && Enabled(s, ModemStart)
    ensures Inv(Next(s, ModemStart))
  {
    hide Granted, Carried;
    if Get(s.host.id) in s.down { GetGrants(s.down, s.host.id); }
  }

  lemma {:induction false} SendInv(s: State, step: Step)
    requires Inv(s) && Enabled(s, step) && (step.ModemSend? || step.ModemEnd?)
    ensures Inv(Next(s, step))
  {
    hide Granted, Carried;
    var m := if step.ModemSend? then Body(s.modem.id, s.modem.task.n) else Finished(s.modem.id);
    CarriedJoin(s.up, [m], s.host.id);
    CarriedOne(m, s.host.id);
  }

  lemma {:induction false} StepInv(s: State, step: Step)
    requires Inv(s) && Enabled(s, step)
    ensures Inv(Next(s, step))
  {
    hide Inv, Flush, Receive, Handle;
    match step
    case HostGet(room) => GetInv(s, room);
    case HostReceive(keep, room) => ReceiveInv(s, keep, room);
    case HostPoll(room) => FlushInv(s, room);
    case HostCancel(room) => CancelInv(s, room);
    case ModemReceive(refuse) => HandleInv(s, refuse);
    case ModemStart => StartInv(s);
    case ModemSend => SendInv(s, step);
    case ModemEnd => SendInv(s, step);
    case _ => TaskInv(s, step);
  }

  // ---- whole runs ----------------------------------------------------------------------------

  /** The state after a schedule; a step that is not enabled does nothing. */
  ghost function After(s: State, steps: seq<Step>): (r: State)
    requires Inv(s)
    ensures Inv(r)
  {
    if steps == [] then s
    else
      var p, step := After(s, steps[..|steps| - 1]), steps[|steps| - 1];
      if Enabled(p, step) then StepInv(p, step); Next(p, step) else p
  }

  /** Under every interleaving: credit held, body in flight, bytes owed, grants in flight and what the
      race lost always make exactly one window, so the modem never has more than a window of body on
      the link and never sends a byte it was not granted. */
  lemma {:induction false} RunConserves(s: State, steps: seq<Step>)
    requires Init(s)
    ensures Inv(s)
    ensures var t := After(s, steps);
            t.host.active && !t.over ==>
              && Held(t.modem, t.host.id) + Carried(t.up, t.host.id) + t.host.unacked + Granted(t.down, t.host.id) + t.lost == WINDOW
              && Carried(t.up, t.host.id) + t.host.unacked <= WINDOW
  {
    hide Granted, Carried, Held, Next;
    InitInv(s);
  }

  // ---- the end of a request ------------------------------------------------------------------

  /** Once the modem is through with the host's request, the message that says so is on its way. */
  ghost predicate Told(s: State) {
    s.host.active && s.over ==> Finished(s.host.id) in s.up
  }

  lemma {:induction false} ToldStep(s: State, step: Step)
    requires Enabled(s, step) && Told(s)
    ensures Told(Next(s, step))
  {
    if s.up != [] { assert s.up == [s.up[0]] + s.up[1..]; }
  }

  /** No request hangs unnoticed: while it is active and nothing is on its way to the host, the modem is
      serving it or has it still to start. */
  lemma {:induction false} RunTells(s: State, steps: seq<Step>)
    requires Inv(s) && Told(s)
    ensures Told(After(s, steps))
    ensures var t := After(s, steps);
            t.host.active && t.up == [] ==>
              || (t.modem.active && t.modem.id == t.host.id) || t.modem.queued == Some(t.host.id)
              || Get(t.host.id) in t.down
  {
    hide Enabled, Next, Conserved, Known, Paid, Positive;
    if steps != [] {
      RunTells(s, steps[..|steps| - 1]);
      var p, step := After(s, steps[..|steps| - 1]), steps[|steps| - 1];
      if Enabled(p, step) { ToldStep(p, step); }
    }
  }

  /** Chunks put on the link in a run. */
  ghost function Chunks(s: State, steps: seq<Step>): nat
    requires Inv(s)
  {
    if steps == [] then 0
    else
      var p, step := After(s, steps[..|steps| - 1]), steps[|steps| - 1];
      Chunks(s, steps[..|steps| - 1]) + if Enabled(p, step) && step.ModemSend? then 1 else 0
  }

  function Underway(t: Task): nat { if t.Loop? then 0 else 1 }

  lemma CancelStep(s: State, step: Step)
    requires Enabled(s, step) && s.modem.active && s.modem.cancelled && !step.ModemEnd?
    ensures var m := Next(s, step).modem;
            m.active && m.cancelled && (if step.ModemSend? then 1 else 0) + Underway(m.task) <= Underway(s.modem.task)
  {
  }

  /** Once a cancel has reached the request being served, at most the chunk under way still goes out. */
  lemma {:induction false} CancelStops(s: State, steps: seq<Step>)
    requires Inv(s) && s.modem.active && s.modem.cancelled && ModemEnd !in steps
    ensures Chunks(s, steps) <= Underway(s.modem.task) <= 1
    ensures var m := After(s, steps).modem;
            m.active && m.cancelled && Chunks(s, steps) + Underway(m.task) <= Underway(s.modem.task)
  {
    hide Inv, Enabled, Next;
    if steps != [] {
      var p, step := After(s, steps[..|steps| - 1]), steps[|steps| - 1];
      CancelStops(s, steps[..|steps| - 1]);
      if Enabled(p, step) { CancelStep(p, step); }
    }
  }

  /** A cancel for the request being served is taken, and one for any other request is not. */
  lemma CancelTaken(s: State)
    requires Enabled(s, ModemReceive(false)) && s.down[0].Cancel? && s.modem.active
    ensures Next(s, ModemReceive(false)).modem.cancelled <==> s.modem.cancelled || s.down[0].id == s.modem.id
  {
  }

  /** The ring has room for a grant whenever a message is received. */
  predicate AlwaysRoom(steps: seq<Step>) { forall i :: 0 <= i < |steps| && steps[i].HostReceive? ==> steps[i].room }

  /** Then the host never owes half a window, and http_poll has nothing to try again. */
  lemma {:induction false} NothingOwed(s: State, steps: seq<Step>)
    requires Inv(s) && s.host.unacked < REFILL && AlwaysRoom(steps)
    ensures var t := After(s, steps); t.host.unacked < REFILL && !Enabled(t, HostPoll(true))
  {
    hide Inv, Next;
    if steps != [] {
      var n := |steps| - 1;
      NothingOwed(s, steps[..n]);
      var p := After(s, steps[..n]);
      if Enabled(p, steps[n]) { OwesLess(p, steps[n]); }
    }
  }

  lemma OwesLess(p: State, step: Step)
    requires Enabled(p, step) && p.host.unacked < REFILL && (step.HostReceive? ==> step.room)
    ensures Next(p, step).host.unacked < REFILL
  {
  }

  /** The body loop has nothing to spend and nothing is on its way in either direction. */
  predicate Idle(s: State) {
    && s.host.active && !s.over
    && s.modem.active && s.modem.id == s.host.id && s.modem.credit == 0 && s.modem.task.Loop?
    && Granted(s.down, s.host.id) == 0 && Carried(s.up, s.host.id) == 0
  }

  /** An idle transfer is never stuck unless the race lost more than half a window: the host owes
      enough for http_poll to grant again, and when the grant is queued the modem can read on. */
  lemma {:induction false} NoStall(s: State)
    requires Inv(s) && Idle(s)
    ensures Enabled(s, HostPoll(true)) <==> s.lost <= WINDOW - REFILL
    ensures s.lost == 0 ==> s.host.unacked == WINDOW
    ensures Enabled(s, HostPoll(true)) ==> Granted(Next(s, HostPoll(true)).down, s.host.id) == s.host.unacked
  {
    hide Granted, Carried;
    GrantedJoin(s.down, [Grant(s.host.id, s.host.unacked)], s.host.id);
    GrantedOne(Grant(s.host.id, s.host.unacked), s.host.id);
  }

  /** Credit is lost by exactly one thing: a grant handled between the load and the store. */
  lemma {:induction false} LostOnlyInRace(s: State, step: Step)
    requires Inv(s) && Enabled(s, step) && !step.HostGet?
    ensures Next(s, step).lost != s.lost <==>
            step.ModemStore? && s.modem.id == s.host.id && s.modem.credit > s.modem.task.tmp
    ensures Next(s, step).lost >= s.lost
  {
    hide Granted, Carried, Held, Inv;
  }

  /** No grant is handled between a load and its store. */
  ghost predicate RaceFree(s: State, steps: seq<Step>)
    requires Inv(s)
  {
    forall j :: 0 <= j < |steps| && steps[j].ModemReceive? ==>
      var t := After(s, steps[..j]); t.down != [] && t.down[0].Grant? ==> !t.modem.task.Loaded?
  }

  ghost predicate Fair(s: State) {
    s.lost == 0 && (s.modem.task.Loaded? ==> s.modem.credit == s.modem.task.tmp)
  }

  lemma {:induction false} FairStep(s: State, step: Step)
    requires Inv(s) && Enabled(s, step) && Fair(s)
    requires step.ModemReceive? && s.down[0].Grant? ==> !s.modem.task.Loaded?
    ensures Fair(Next(s, step))
  {
    hide Inv, Granted, Carried, Held;
  }

  /** On every run without that race nothing is lost, so no transfer ever stalls. */
  lemma {:induction false} RaceFreeConserves(s: State, steps: seq<Step>)
    requires Inv(s) && Fair(s) && RaceFree(s, steps)
    ensures Fair(After(s, steps))
    ensures var t := After(s, steps); Idle(t) ==> t.host.unacked == WINDOW && Enabled(t, HostPoll(true))
  {
    hide Inv, Enabled, Next, Idle, Fair;
    if steps != [] {
      var n := |steps| - 1;
      var pre := steps[..n];
      forall j | 0 <= j < |pre| && pre[j].ModemReceive?
        ensures var t := After(s, pre[..j]); t.down != [] && t.down[0].Grant? ==> !t.modem.task.Loaded?
      {
        assert pre[..j] == steps[..j];
      }
      RaceFreeConserves(s, pre);
      var p := After(s, pre);
      if Enabled(p, steps[n]) { RaceStep(p, steps[n]); }
    }
    FairIdle(After(s, steps));
  }

  lemma {:induction false} RaceStep(p: State, step: Step)
    requires Inv(p) && Fair(p) && Enabled(p, step)
    requires step.ModemReceive? ==> p.down != [] && p.down[0].Grant? ==> !p.modem.task.Loaded?
    ensures Fair(Next(p, step))
  {
    hide Inv, Next, Fair;
    FairStep(p, step);
  }

  lemma {:induction false} FairIdle(t: State)
    requires Inv(t) && Fair(t)
    ensures Idle(t) ==> t.host.unacked == WINDOW && Enabled(t, HostPoll(true))
  {
    if Idle(t) { NoStall(t); }
  }

  // ---- the race, from start-up ---------------------------------------------------------------

  lemma {:induction false} AfterMore(s: State, steps: seq<Step>, step: Step)
    requires Inv(s) && Enabled(After(s, steps), step)
    ensures After(s, steps + [step]) == Next(After(s, steps), step)
  {
    hide Inv, Enabled, Next;
    assert (steps + [step])[..|steps|] == steps;
  }

  /** One chunk all the way to a sink that is not yet owed half a window. */
  lemma {:induction false} Chunk(s: State, steps: seq<Step>, n: nat) returns (more: seq<Step>)
    requires Inv(s) && Serving(After(s, steps)) && 0 < n <= BODY_CHUNK
    requires var t := After(s, steps); n <= t.modem.credit && t.host.unacked + n < REFILL
    ensures var t := After(s, steps);
            After(s, more) == t.(modem := t.modem.(credit := t.modem.credit - n), host := t.host.(unacked := t.host.unacked + n))
  {
    hide Inv, Enabled;
    var t := After(s, steps);
    more := Paced(s, steps, n);
    var u := After(s, more);
    AfterMore(s, more, HostReceive(true, true)) by { EnabledReceive(u); }
    more := more + [HostReceive(true, true)];
    assert u.up[1..] == [] && t.down + [] == t.down;
  }

  /** The modem serves the host's request, between chunks, with both channels empty. */
  predicate Serving(s: State) {
    && s.host.active && s.modem.active && s.modem.id == s.host.id && s.modem.task.Loop? && !s.modem.cancelled
    && s.up == [] && s.down == []
  }

  lemma {:induction false} EnabledReceive(s: State)
    requires s.up != []
    ensures Enabled(s, HostReceive(true, true))
  {
  }

  lemma {:induction false} Paced(s: State, steps: seq<Step>, n: nat) returns (more: seq<Step>)
    requires Inv(s) && Serving(After(s, steps)) && 0 < n <= BODY_CHUNK && n <= After(s, steps).modem.credit
    ensures var t := After(s, steps);
            After(s, more) == t.(modem := t.modem.(credit := t.modem.credit - n), up := [Body(t.host.id, n)])
  {
    hide Inv, After;
    var t := After(s, steps);
    AfterMore(s, steps, ModemLook);
    more := steps + [ModemLook];
    AfterMore(s, more, ModemTake(n));
    more := more + [ModemTake(n)];
    AfterMore(s, more, ModemLoad);
    more := more + [ModemLoad];
    AfterMore(s, more, ModemStore);
    more := more + [ModemStore];
    AfterMore(s, more, ModemSend);
    more := more + [ModemSend];
  }

  lemma {:induction false} Opened(s: State) returns (steps: seq<Step>)
    requires Init(s)
    ensures Inv(s) && Serving(After(s, steps)) && After(s, steps).modem.credit == WINDOW
    ensures var t := After(s, steps); t.host.unacked == 0 && t.lost == 0 && !t.over && t.modem.queued == None
  {
    InitInv(s);
    hide Inv, After;
    assert After(s, []) == s by { Untouched(s); }
    AfterMore(s, [], HostGet(true));
    steps := [] + [HostGet(true)];
    AfterMore(s, steps, ModemReceive(false));
    steps := steps + [ModemReceive(false)];
    AfterMore(s, steps, ModemStart);
    steps := steps + [ModemStart];
  }

  lemma {:induction false} Untouched(s: State)
    requires Inv(s)
    ensures After(s, []) == s
  {
  }

  /** The grant for five chunks arrives between the load and the store for the sixth. */
  lemma {:induction false} Raced(s: State, steps: seq<Step>) returns (more: seq<Step>)
    requires Inv(s) && Serving(After(s, steps))
    requires var t := After(s, steps); t.modem.credit == 3077 + 1023 && t.host.unacked == 4092 && t.lost == 0 && !t.over
    ensures var t := After(s, more);
            Serving(t) && t.modem.credit == 2054 && t.host.unacked == 1023 && t.lost == 5115 && !t.over
  {
    more := Paced(s, steps, 1023);
    more := RacedLoad(s, more);
    hide Inv, After, Enabled;
    EnabledReceive(After(s, more));
    AfterMore(s, more, HostReceive(true, true));
    more := more + [HostReceive(true, true)];
    more := RacedEnd(s, more);
  }

  lemma {:induction false} RacedLoad(s: State, steps: seq<Step>) returns (more: seq<Step>)
    requires Inv(s)
    requires var t := After(s, steps); t.modem.active && t.modem.task.Loop? && !t.modem.cancelled && t.modem.credit == 3077
    ensures After(s, more) == After(s, steps).(modem := After(s, steps).modem.(task := Loaded(1023, 3077)))
  {
    hide Inv, After;
    AfterMore(s, steps, ModemLook);
    more := steps + [ModemLook];
    AfterMore(s, more, ModemTake(1023));
    more := more + [ModemTake(1023)];
    AfterMore(s, more, ModemLoad);
    more := more + [ModemLoad];
  }

  lemma {:induction false} RacedEnd(s: State, steps: seq<Step>) returns (more: seq<Step>)
    requires Inv(s)
    requires var t := After(s, steps);
             && t.host.active && t.modem.active && t.modem.id == t.host.id && t.up == []
             && t.modem.task == Loaded(1023, 3077) && !t.modem.cancelled && t.modem.credit == 3077 && t.host.unacked == 0
             && t.down == [] + [Grant(t.host.id, 5115)] && t.lost == 0 && !t.over
    ensures var t := After(s, more);
            Serving(t) && t.modem.credit == 2054 && t.host.unacked == 1023 && t.lost == 5115 && !t.over
  {
    hide Inv, After;
    AfterMore(s, steps, ModemReceive(false));
    more := steps + [ModemReceive(false)];
    AfterMore(s, more, ModemStore);
    more := more + [ModemStore];
    AfterMore(s, more, ModemSend);
    more := more + [ModemSend];
    AfterMore(s, more, HostReceive(true, true));
    more := more + [HostReceive(true, true)];
    assert After(s, more).down == [] + [];
  }

  /** The race is real: from start-up there is a run after which the transfer is stuck until its request times out. Nine
      chunks are sent, one grant is lost, the modem has no credit, nothing is in flight, and the host
      owes too little to grant again. */
  lemma {:induction false} StallReached(s: State) returns (steps: seq<Step>)
    requires Init(s)
    ensures Inv(s)
    ensures var t := After(s, steps);
            && Idle(t) && t.lost == 5115 && t.host.unacked == 3077 && !Enabled(t, HostPoll(true))
            && t.down == [] && t.up == [] && !Enabled(t, ModemLook)
  {
    hide Inv, After, Enabled;
    steps := Opened(s);
    steps := Chunk(s, steps, 1023);
    steps := Chunk(s, steps, 1023);
    steps := Chunk(s, steps, 1023);
    steps := Chunk(s, steps, 1023);
    steps := Raced(s, steps);
    steps := Chunk(s, steps, 1023);
    steps := Chunk(s, steps, 1023);
    steps := Chunk(s, steps, 8);
    Stuck(After(s, steps));
  }

  lemma {:induction false} Stuck(t: State)
    requires Serving(t) && !t.over && t.modem.credit == 0 && t.host.unacked < REFILL
    ensures Idle(t) && !Enabled(t, HostPoll(true)) && !Enabled(t, ModemLook)
  {
  }

  // ---- the host's code -----------------------------------------------------------------------

  /** http_client: one request at a time; `sent` is what went into the transmit ring. */
  class Client {
    var id: nat
    var active: bool
    var unacked: nat
    var sent: seq<Down>

    function View(): Host
      reads this
    {
      Host(id, active, unacked)
    }

    constructor ()
      ensures View() == Host(0, false, 0) && sent == []
    {
      id, active, unacked, sent := 0, false, 0, [];
    }

    method Send(m: Down, room: bool) returns (ok: bool)
      modifies this`sent
      ensures ok == room && sent == old(sent) + if room then [m] else []
    {
      if room { sent := sent + [m]; }
      return room;
    }

    /** http_get: the first window goes with the request. */
    method HttpGet(room: bool) returns (ok: bool)
      modifies this
      ensures ok == (!old(active) && room)
      ensures if old(active) then View() == old(View()) && sent == old(sent)
              else View() == Ask(old(View()), room).0 && sent == old(sent) + Ask(old(View()), room).1
    {
      if active { return false; }
      id := id + 1;
      ok := Send(Get(id), room);
      if ok { active, unacked := true, 0; }
    }

    method GrantFlush(room: bool)
      modifies this`unacked, this`sent
      ensures View() == Pay(old(View()), room).0 && sent == old(sent) + Pay(old(View()), room).1
    {
      var ok := Send(Grant(id, unacked), room);
      if ok { unacked := 0; }
    }

    method GrantMore(n: nat, room: bool)
      modifies this`unacked, this`sent
      ensures var g := old(View()).(unacked := old(unacked) + n);
              var (h, m) := if g.unacked >= REFILL then Pay(g, room) else (g, []);
              View() == h && sent == old(sent) + m
    {
      unacked := unacked + n;
      if unacked >= REFILL { GrantFlush(room); }
    }

    /** http_modem_on_message, for a body chunk or the end of the request. */
    method Receive(m: Up, keep: bool, room: bool)
      modifies this
      ensures (View(), sent) == (OnMessage(old(View()), m, keep, room).0, old(sent) + OnMessage(old(View()), m, keep, room).1)
    {
      var none: seq<Down> := [];
      assert sent + none == sent;
      if !active || m.id != id { return; }
      match m {
        case Finished(_) => active := false;
        case Body(_, n) =>
          if !keep {
            var ok := Send(Cancel(id), room);
            active := false;
          } else {
            GrantMore(n, room);
          }
      }
    }

    /** http_poll, the retry of a grant that found the ring full. */
    method Poll(room: bool)
      modifies this`unacked, this`sent
      ensures var (h, m) := if old(active) && old(unacked) >= REFILL then Pay(old(View()), room) else (old(View()), []);
              View() == h && sent == old(sent) + m
    {
      if !active { return; }
      if unacked >= REFILL { GrantFlush(room); }
    }
  }
}
