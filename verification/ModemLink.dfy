/** The link's code: the receiver's state in its buffers, and the transmit ring the DMA drains. */
module ModemLink {
  import opened Prelude
  import opened Frames

  datatype State = SSync0 | SSync1 | SHead | SPayload | SCrc

  class Receiver {
    var st: State
    const head: array<Byte>
    const buf: array<Byte>
    var fill: nat
    var plen: nat
    var want: Half
    var crc: Half
    var told: seq<Msg>

    ghost predicate Valid()
      reads this, head, buf
    {
      && head.Length == 4 && buf.Length == MAX_PAYLOAD && head != buf && Ok(View())
      && (st.SHead? ==> fill < 4)
      && (st.SPayload? ==> plen == Plen(head[..]) && fill < plen <= MAX_PAYLOAD && crc == Crc(CRC_INIT, head[..]))
      && (st.SCrc? ==> plen == Plen(head[..]) <= MAX_PAYLOAD && fill <= 1 && crc == FrameCrc(head[..], buf[..plen])
                       && (fill == 1 ==> want < 256))
    }

    ghost function View(): Parser
      reads this, head, buf
    {
      match st
      case SSync0 => Sync0
      case SSync1 => Sync1
      case SHead => if fill <= head.Length then Head(head[..fill]) else Sync0
      case SPayload => if fill <= buf.Length then Payload(head[..], buf[..fill]) else Sync0
      case SCrc =>
        if plen <= buf.Length then Check(head[..], buf[..plen], if fill == 0 then None else Some(Low8(want))) else Sync0
    }

    constructor ()
      ensures Valid() && View() == Sync0 && told == [] && fresh(head) && fresh(buf)
    {
      head := new Byte[4];
      buf := new Byte[MAX_PAYLOAD];
      st, fill, plen, want, crc, told := SSync0, 0, 0, 0, 0, [];
    }

    method TakeHead(b: Byte)
      requires Valid() && st.SHead?
      modifies this`st, this`fill, this`plen, this`crc, head
      ensures Valid() && View() == Step(old(View()), b).0
    {
      hide Crc, FrameCrc, Both, Low8, High8;
      ghost var was := head[..fill];
      head[fill] := b;
      fill := fill + 1;
      assert head[..fill] == was + [b];
      if fill == 4 {
        assert head[..4] == head[..];
        HeadDone();
      }
    }

    /** The head is whole: how long the payload is, or that it cannot be a frame. */
    method HeadDone()
      requires head.Length == 4 && buf.Length == MAX_PAYLOAD && head != buf && st.SHead? && fill == 4
      modifies this`st, this`fill, this`plen, this`crc
      ensures Valid()
      ensures View() == if Plen(head[..]) > MAX_PAYLOAD then Sync0
                        else if Plen(head[..]) > 0 then Payload(head[..], []) else Check(head[..], [], None)
    {
      hide Crc, FrameCrc, Step, Both, Low8, High8;
      plen := Both(head[2], head[3]);
      if plen > MAX_PAYLOAD { st, fill := SSync0, 0; return; }
      crc := ModemCrc16(CRC_INIT, head[..]);
      fill := 0;
      assert buf[..0] == [];
      CrcNothing(head[..]);
      st := if plen > 0 then SPayload else SCrc;
    }

    method TakePayload(b: Byte)
      requires Valid() && st.SPayload?
      modifies this`st, this`fill, this`crc, buf
      ensures Valid() && View() == Step(old(View()), b).0
    {
      hide Crc, FrameCrc, Both, Low8, High8;
      ghost var was := buf[..fill];
      buf[fill] := b;
      fill := fill + 1;
      assert buf[..fill] == was + [b];
      if fill < plen { return; }
      crc := ModemCrc16(crc, buf[..plen]);
      CrcBoth(head[..], buf[..plen]);
      fill := 0;
      st := SCrc;
    }

    method TakeCrcLow(b: Byte)
      requires Valid() && st.SCrc? && fill == 0
      modifies this`fill, this`want
      ensures Valid() && View() == Step(old(View()), b).0 && Step(old(View()), b).1 == []
    {
      hide Crc, FrameCrc, Both, Low8, High8;
      LowSame(b);
      want, fill := b, 1;
    }

    method TakeCrcHigh(b: Byte)
      requires Valid() && st.SCrc? && fill == 1
      modifies this`st, this`fill, this`want, this`told
      ensures Valid() && View() == Step(old(View()), b).0 && told == old(told) + Step(old(View()), b).1
    {
      hide Crc, FrameCrc, Both, Low8, High8;
      var none: seq<Msg> := [];
      assert told + none == told;
      LowSame(want);
      want := Both(want, b);
      st, fill := SSync0, 0;
      if want == crc { told := told + [Msg(head[0], buf[..plen])]; }
    }

    /** parse_byte, and the same machine in the modem's rx_task. */
    method ParseByte(b: Byte)
      requires Valid()
      modifies this, head, buf
      ensures Valid() && View() == Step(old(View()), b).0 && told == old(told) + Step(old(View()), b).1
    {
      hide Crc, FrameCrc, Both, Low8, High8;
      var none: seq<Msg> := [];
      assert told + none == told;
      match st {
        case SSync0 => if b == SYNC0 { st := SSync1; }
        case SSync1 =>
          if b == SYNC1 { st, fill := SHead, 0; assert head[..0] == []; }
          else if b != SYNC0 { st := SSync0; }
        case SHead => TakeHead(b);
        case SPayload => TakePayload(b);
        case SCrc => if fill == 0 { TakeCrcLow(b); } else { TakeCrcHigh(b); }
      }
    }

    method Receive(bytes: seq<Byte>)
      requires Valid()
      modifies this, head, buf
      ensures Valid() && View() == Run(old(View()), bytes).0 && told == old(told) + Run(old(View()), bytes).1
    {
      hide Step, Crc, FrameCrc, Run, Ok;
      ghost var p0, done: seq<Msg> := View(), [];
      ValidOk();
      assert bytes[..0] == [] && bytes[..|bytes|] == bytes;
      RunNothing(p0, bytes[..0]);
      assert told + done == told;
      for i := 0 to |bytes|
        invariant Valid() && Run(p0, bytes[..i]) == (View(), done) && told == old(told) + done
      {
        ghost var p := View();
        ValidOk();
        assert bytes[..i + 1] == bytes[..i] + [bytes[i]];
        RunJoin(p0, bytes[..i], [bytes[i]]);
        RunOne(p, bytes[i]);
        ghost var more := Step(p, bytes[i]).1;
        assert old(told) + (done + more) == (old(told) + done) + more;
        ParseByte(bytes[i]);
        done := done + more;
      }
    }

    lemma ValidOk()
      requires Valid()
      ensures Ok(View())
    {
    }
  }

  lemma {:induction false} LowSame(b: Byte)
    ensures Low8(b) == b
  {
  }

  lemma {:induction false} CrcNothing(head: seq<Byte>)
    ensures FrameCrc(head, []) == Crc(CRC_INIT, head)
  {
    hide Crc;
    assert head + [] == head;
  }

  lemma {:induction false} CrcBoth(head: seq<Byte>, payload: seq<Byte>)
    ensures FrameCrc(head, payload) == Crc(Crc(CRC_INIT, head), payload)
  {
    hide Crc;
    CrcAppend(CRC_INIT, head, payload);
  }

  // ---- transmit ------------------------------------------------------------------------------

  const TX_RING := 4096

  /** The bytes from position `from` to `end` of an endless stream kept in a ring. */
  function Kept(ring: seq<Byte>, from: nat, end: nat): (s: seq<Byte>)
    requires |ring| == TX_RING && from <= end
    ensures |s| == end - from
    decreases end - from
  {
    if from == end then [] else [ring[from % TX_RING]] + Kept(ring, from + 1, end)
  }

  lemma {:induction false} KeptSplit(ring: seq<Byte>, a: nat, b: nat, c: nat)
    requires |ring| == TX_RING && a <= b <= c
    ensures Kept(ring, a, c) == Kept(ring, a, b) + Kept(ring, b, c)
    decreases b - a
  {
    if a < b { KeptSplit(ring, a + 1, b, c); }
  }

  /** A byte put in the ring's free part disturbs none that are waiting. */
  lemma {:induction false} KeptAfter(ring: seq<Byte>, from: nat, end: nat, at: nat, b: Byte)
    requires |ring| == TX_RING && from <= end <= at < from + TX_RING
    ensures Kept(ring[at % TX_RING := b], from, end) == Kept(ring, from, end)
    decreases end - from
  {
    if from < end {
      Apart(from, at);
      KeptAfter(ring, from + 1, end, at, b);
    }
  }

  lemma Apart(i: nat, at: nat)
    requires i < at < i + TX_RING
    ensures i % TX_RING != at % TX_RING
  {
  }

  class TxRing {
    const ring: array<Byte>
    var head: nat
    var tail: nat
    var inflight: nat
    ghost var wire: seq<Byte>

    ghost predicate Valid()
      reads this, ring
    {
      ring.Length == TX_RING && tail + inflight <= head <= tail + TX_RING
    }

    /** Everything accepted so far: what the wire has taken and what still waits, in order. */
    ghost function Accepted(): seq<Byte>
      requires Valid()
      reads this, ring
    {
      wire + Kept(ring[..], tail, head)
    }

    constructor ()
      ensures Valid() && Accepted() == [] && head == 0 && fresh(ring)
    {
      ring := new Byte[TX_RING];
      head, tail, inflight, wire := 0, 0, 0, [];
    }

    /** tx_kick: retire the transfer that finished, start the next contiguous stretch. */
    method Kick(busy: bool)
      requires Valid()
      modifies this`tail, this`inflight, this`wire
      ensures Valid() && Accepted() == old(Accepted()) && old(wire) <= wire
    {
      hide Kept;
      if busy { return; }
      if inflight > 0 {
        KeptSplit(ring[..], tail, tail + inflight, head);
        ghost var out, rest := Kept(ring[..], tail, tail + inflight), Kept(ring[..], tail + inflight, head);
        assert wire + (out + rest) == (wire + out) + rest;
        wire := wire + out;
        tail := tail + inflight;
        inflight := 0;
      }
      var avail := head - tail;
      if avail == 0 { return; }
      var n := TX_RING - tail % TX_RING;
      inflight := if n > avail then avail else n;
    }

    function Free(): (n: nat)
      requires Valid()
      reads this, ring
    {
      TX_RING - (head - tail)
    }

    method Push(p: seq<Byte>)
      requires Valid() && |p| <= Free()
      modifies this`head, ring
      ensures Valid() && Accepted() == old(Accepted()) + p && head == old(head) + |p|
    {
      ghost var before := Accepted();
      assert before + p[..0] == before;
      for i := 0 to |p|
        invariant Valid() && head == old(head) + i && |p| - i <= Free()
        invariant Accepted() == before + p[..i]
      {
        PushOne(p[i]);
        assert before + p[..i] + [p[i]] == before + p[..i + 1];
      }
      assert p[..|p|] == p;
    }

    method PushOne(b: Byte)
      requires Valid() && Free() > 0
      modifies this`head, ring
      ensures Valid() && Accepted() == old(Accepted()) + [b] && head == old(head) + 1
    {
      KeptAfter(ring[..], tail, head, head, b);
      ghost var waiting := Kept(ring[..], tail, head);
      ring[head % TX_RING] := b;
      assert ring[..] == old(ring[..])[head % TX_RING := b];
      KeptSplit(ring[..], tail, head, head + 1);
      KeptLast(ring[..], head);
      head := head + 1;
      assert wire + (waiting + [b]) == (wire + waiting) + [b];
    }

    /** modem_link_send2: the frame goes in whole or not at all, after everything accepted before it. */
    method Send2(kind: Byte, a: seq<Byte>, b: seq<Byte>, busy: bool, busyAfter: bool) returns (ok: bool)
      requires Valid() && |a| + |b| < 0x1_0000
      modifies this, ring
      ensures Valid()
      ensures ok ==> |a| + |b| <= MAX_PAYLOAD && Accepted() == old(Accepted()) + Frame(Msg(kind, a + b), 0)
      ensures !ok ==> Accepted() == old(Accepted())
      ensures ok || |a| + |b| > MAX_PAYLOAD || 8 + |a| + |b| > Free()
    {
      hide Crc, Kept, Frame, FrameCrc;
      var len := |a| + |b|;
      if len > MAX_PAYLOAD { return false; }
      Kick(busy);
      if Free() < 8 + len { return false; }
      var hdr := HeadOf(kind, 0, len);
      var crc := FrameCheck(hdr, a, b);
      PushFrame(kind, a, b, hdr, crc);
      Kick(busyAfter);
      ok := true;
    }

    method PushFrame(kind: Byte, a: seq<Byte>, b: seq<Byte>, hdr: seq<Byte>, crc: Half)
      requires Valid() && |a| + |b| <= MAX_PAYLOAD && 8 + |a| + |b| <= Free()
      requires hdr == HeadOf(kind, 0, |a| + |b|) && crc == FrameCrc(hdr, a + b)
      modifies this`head, ring
      ensures Valid() && Accepted() == old(Accepted()) + Frame(Msg(kind, a + b), 0)
    {
      hide Crc, Kept, Frame, FrameCrc;
      ghost var before := Accepted();
      FramePieces(kind, a, b, before, crc);
      Push([SYNC0, SYNC1] + hdr);
      Push(a);
      Push(b);
      Push([Low8(crc), High8(crc)]);
    }
  }

  /** The CRC of a frame in the sender's three pieces. */
  method FrameCheck(hdr: seq<Byte>, a: seq<Byte>, b: seq<Byte>) returns (crc: Half)
    ensures crc == FrameCrc(hdr, a + b)
  {
    hide Crc, FrameCrc;
    CrcPieces(hdr, a, b);
    crc := ModemCrc16(CRC_INIT, hdr);
    if a != [] { crc := ModemCrc16(crc, a); }
    if b != [] { crc := ModemCrc16(crc, b); }
  }

  lemma {:induction false} KeptLast(ring: seq<Byte>, at: nat)
    requires |ring| == TX_RING
    ensures Kept(ring, at, at + 1) == [ring[at % TX_RING]]
  {
    assert Kept(ring, at + 1, at + 1) == [];
  }

  lemma {:induction false} CrcPieces(hdr: seq<Byte>, a: seq<Byte>, b: seq<Byte>)
    ensures Crc(Crc(Crc(CRC_INIT, hdr), a), b) == FrameCrc(hdr, a + b)
    ensures a == [] ==> Crc(Crc(CRC_INIT, hdr), a) == Crc(CRC_INIT, hdr)
    ensures b == [] ==> Crc(Crc(Crc(CRC_INIT, hdr), a), b) == Crc(Crc(CRC_INIT, hdr), a)
  {
    CrcEmpty(Crc(CRC_INIT, hdr), a);
    CrcEmpty(Crc(Crc(CRC_INIT, hdr), a), b);
    hide Crc;
    CrcAppend(CRC_INIT, hdr, a);
    CrcAppend(CRC_INIT, hdr + a, b);
    assert hdr + a + b == hdr + (a + b);
  }

  lemma {:induction false} CrcEmpty(c: Half, s: seq<Byte>)
    ensures s == [] ==> Crc(c, s) == c
  {
  }

  lemma {:induction false} FramePieces(kind: Byte, a: seq<Byte>, b: seq<Byte>, before: seq<Byte>, crc: Half)
    requires |a| + |b| <= MAX_PAYLOAD && crc == FrameCrc(HeadOf(kind, 0, |a| + |b|), a + b)
    ensures var hdr := HeadOf(kind, 0, |a| + |b|);
            before + ([SYNC0, SYNC1] + hdr) + a + b + [Low8(crc), High8(crc)] == before + Frame(Msg(kind, a + b), 0)
    ensures before + ([SYNC0, SYNC1] + HeadOf(kind, 0, |a| + |b|)) + [] == before + ([SYNC0, SYNC1] + HeadOf(kind, 0, |a| + |b|))
  {
    hide FrameCrc;
  }
}
