/** The framing both ends of the modem link share: A5 5A, type, flags, length, payload, CRC-16. */
module Frames {
  import opened Prelude
  import N = NorFlash

  const SYNC0 := 0xA5
  const SYNC1 := 0x5A
  const MAX_PAYLOAD := 1024
  const FRAME_MAX := 1032
  const CRC_INIT := 0xFFFF

  type Half = h: int | 0 <= h < 0x1_0000

  // ---- CRC-16/CCITT-FALSE --------------------------------------------------------------------

  function XorHalf(a: Half, b: Half): Half {
    N.XorBelow(a, b, 16);
    Pow16();
    N.Xor(a, b, 16)
  }

  lemma Pow16()
    ensures Pow2(16) == 0x1_0000
  {
    assert Pow2(4) == 16;
    assert Pow2(8) == 256;
    assert Pow2(12) == 4096;
  }

  function CrcBit(c: Half): Half {
    if c >= 0x8000 then XorHalf(c * 2 % 0x1_0000, 0x1021) else c * 2
  }

  function CrcBits(c: Half, n: nat): Half {
    if n == 0 then c else CrcBit(CrcBits(c, n - 1))
  }

  function High(b: Byte): Half {
    256 * (b as nat)
  }

  function Crc(c: Half, data: seq<Byte>): Half {
    if data == [] then c else CrcBits(XorHalf(Crc(c, data[..|data| - 1]), High(data[|data| - 1])), 8)
  }

  /** The CRC of a frame can be taken piece by piece, and is at both ends, in different pieces. */
  lemma {:induction false} CrcAppend(c: Half, a: seq<Byte>, b: seq<Byte>)
    ensures Crc(Crc(c, a), b) == Crc(c, a + b)
  {
    if b == [] {
      assert a + b == a;
    } else {
      assert (a + b)[..|a + b| - 1] == a + b[..|b| - 1];
      CrcAppend(c, a, b[..|b| - 1]);
    }
  }

  method ModemCrc16(crc: Half, p: seq<Byte>) returns (c: Half)
    ensures c == Crc(crc, p)
  {
    c := crc;
    for i := 0 to |p|
      invariant c == Crc(crc, p[..i])
    {
      assert p[..i + 1][..i] == p[..i];
      var c0 := XorHalf(c, High(p[i]));
      c := c0;
      for k := 0 to 8
        invariant c == CrcBits(c0, k)
      {
        c := CrcBit(c);
      }
    }
    assert p[..|p|] == p;
  }

  // ---- frames --------------------------------------------------------------------------------

  datatype Msg = Msg(kind: Byte, payload: seq<Byte>)

  function Low8(h: Half): Byte {
    h % 256
  }

  function High8(h: Half): Byte {
    h / 256
  }

  function Both(lo: Byte, hi: Byte): (h: Half)
    ensures Low8(h) == lo && High8(h) == hi
  {
    lo + 256 * (hi as nat)
  }

  function HeadOf(kind: Byte, flags: Byte, n: Half): (b: seq<Byte>)
    ensures |b| == 4
  {
    [kind, flags, Low8(n), High8(n)]
  }

  /** The CRC of a frame, over its head and payload. */
  function FrameCrc(head: seq<Byte>, payload: seq<Byte>): Half {
    Crc(CRC_INIT, head + payload)
  }

  /** A whole frame on the wire. */
  function Frame(m: Msg, flags: Byte): (b: seq<Byte>)
    requires |m.payload| <= MAX_PAYLOAD
    ensures |b| == 8 + |m.payload|
  {
    var head := HeadOf(m.kind, flags, |m.payload|);
    var crc := FrameCrc(head, m.payload);
    [SYNC0, SYNC1] + head + m.payload + [Low8(crc), High8(crc)]
  }

  // ---- the parser ----------------------------------------------------------------------------

  /** What has been recognised: nothing, A5, the sync and part of the head, the head and part of the
      payload, or all of it and perhaps the first CRC byte. */
  datatype Parser =
    | Sync0
    | Sync1
    | Head(head: seq<Byte>)
    | Payload(head: seq<Byte>, buf: seq<Byte>)
    | Check(head: seq<Byte>, buf: seq<Byte>, lo: Option<Byte>)

  function Plen(head: seq<Byte>): Half
    requires |head| == 4
  {
    Both(head[2], head[3])
  }

  ghost predicate Ok(p: Parser) {
    match p
    case Sync0 => true
    case Sync1 => true
    case Head(h) => |h| < 4
    case Payload(h, b) => |h| == 4 && |b| < Plen(h) <= MAX_PAYLOAD
    case Check(h, b, _) => |h| == 4 && |b| == Plen(h) <= MAX_PAYLOAD
  }

  function Step(p: Parser, b: Byte): (r: (Parser, seq<Msg>))
    requires Ok(p)
    ensures Ok(r.0) && |r.1| <= 1
  {
    hide FrameCrc;
    match p
    case Sync0 => (if b == SYNC0 then Sync1 else Sync0, [])
    case Sync1 => (if b == SYNC1 then Head([]) else if b == SYNC0 then Sync1 else Sync0, [])
    case Head(h) =>
      var g := h + [b];
      if |g| < 4 then (Head(g), [])
      else if Plen(g) > MAX_PAYLOAD then (Sync0, [])
      else if Plen(g) > 0 then (Payload(g, []), [])
      else (Check(g, [], None), [])
    case Payload(h, buf) =>
      var g := buf + [b];
      if |g| < Plen(h) then (Payload(h, g), []) else (Check(h, g, None), [])
    case Check(h, buf, lo) =>
      if lo == None then (Check(h, buf, Some(b)), [])
      else (Sync0, if Both(lo.value, b) == FrameCrc(h, buf) then [Msg(h[0], buf)] else [])
  }

  function Run(p: Parser, s: seq<Byte>): (r: (Parser, seq<Msg>))
    requires Ok(p)
    ensures Ok(r.0)
    decreases |s|
  {
    if s == [] then (p, [])
    else
      var (q, m) := Step(p, s[0]);
      var (r, ms) := Run(q, s[1..]);
      (r, m + ms)
  }

  lemma {:induction false} RunJoin(p: Parser, a: seq<Byte>, b: seq<Byte>)
    requires Ok(p)
    ensures Run(p, a + b) == (Run(Run(p, a).0, b).0, Run(p, a).1 + Run(Run(p, a).0, b).1)
    decreases |a|
  {
    hide Step, Ok;
    if a == [] {
      assert a + b == b;
      var none: seq<Msg> := [];
      assert none + Run(p, b).1 == Run(p, b).1;
    } else {
      var (q, m) := Step(p, a[0]);
      assert (a + b)[1..] == a[1..] + b;
      RunJoin(q, a[1..], b);
      var x, y := Run(q, a[1..]).1, Run(Run(p, a).0, b).1;
      assert m + (x + y) == (m + x) + y;
    }
  }

  /** Bytes that tell nothing only move the parser on. */
  lemma {:induction false} RunQuiet(p: Parser, a: seq<Byte>, b: seq<Byte>)
    requires Ok(p) && Run(p, a).1 == []
    ensures Run(p, a + b) == Run(Run(p, a).0, b)
  {
    hide Run;
    RunJoin(p, a, b);
    var m := Run(Run(p, a).0, b).1;
    assert [] + m == m;
  }

  // ---- completeness --------------------------------------------------------------------------

  lemma {:induction false} RunOne(p: Parser, b: Byte)
    requires Ok(p)
    ensures Run(p, [b]) == Step(p, b)
  {
    assert [b][1..] == [];
    var m := Step(p, b).1;
    assert m + [] == m;
  }

  lemma {:induction false} RunHead(head: seq<Byte>, k: nat)
    requires |head| == 4 && k <= 4 && Plen(head) <= MAX_PAYLOAD
    ensures Run(Head([]), head[..k]) ==
            (if k < 4 then Head(head[..k]) else if Plen(head) > 0 then Payload(head, []) else Check(head, [], None), [])
    decreases k
  {
    hide Run, FrameCrc;
    if k == 0 {
      RunNothing(Head([]), head[..0]);
    } else {
      RunHead(head, k - 1);
      assert head[..k] == head[..k - 1] + [head[k - 1]];
      RunQuiet(Head([]), head[..k - 1], [head[k - 1]]);
      RunOne(Head(head[..k - 1]), head[k - 1]);
      assert k == 4 ==> head[..k] == head;
    }
  }

  lemma {:induction false} RunNothing(p: Parser, s: seq<Byte>)
    requires Ok(p) && s == []
    ensures Run(p, s) == (p, [])
  {
  }

  lemma {:induction false} RunPayload(head: seq<Byte>, payload: seq<Byte>, k: nat)
    requires |head| == 4 && 0 < Plen(head) == |payload| <= MAX_PAYLOAD && k <= |payload|
    ensures Run(Payload(head, []), payload[..k]) ==
            (if k < |payload| then Payload(head, payload[..k]) else Check(head, payload, None), [])
    decreases k
  {
    hide Run, FrameCrc;
    if k == 0 {
      RunNothing(Payload(head, []), payload[..0]);
    } else {
      RunPayload(head, payload, k - 1);
      assert payload[..k] == payload[..k - 1] + [payload[k - 1]];
      RunQuiet(Payload(head, []), payload[..k - 1], [payload[k - 1]]);
      RunOne(Payload(head, payload[..k - 1]), payload[k - 1]);
      assert k == |payload| ==> payload[..k] == payload;
    }
  }

  lemma {:induction false} RunCheck(head: seq<Byte>, payload: seq<Byte>)
    requires |head| == 4 && Plen(head) == |payload| <= MAX_PAYLOAD
    ensures var crc := FrameCrc(head, payload);
            Run(Check(head, payload, None), [Low8(crc), High8(crc)]) == (Sync0, [Msg(head[0], payload)])
  {
    hide Run, FrameCrc;
    var crc := FrameCrc(head, payload);
    assert [Low8(crc), High8(crc)] == [Low8(crc)] + [High8(crc)];
    RunOne(Check(head, payload, None), Low8(crc));
    RunQuiet(Check(head, payload, None), [Low8(crc)], [High8(crc)]);
    RunOne(Check(head, payload, Some(Low8(crc))), High8(crc));
  }

  lemma {:induction false} RunSync(p: Parser)
    requires p == Sync0 || p == Sync1
    ensures Run(p, [SYNC0, SYNC1]) == (Head([]), [])
  {
    hide Run;
    assert [SYNC0, SYNC1] == [SYNC0] + [SYNC1];
    RunOne(p, SYNC0);
    RunQuiet(p, [SYNC0], [SYNC1]);
    RunOne(Sync1, SYNC1);
  }

  /** A whole frame fed to a parser between frames is told, unchanged, and nothing else is. */
  lemma {:induction false} FrameTold(p: Parser, m: Msg, flags: Byte)
    requires (p == Sync0 || p == Sync1) && |m.payload| <= MAX_PAYLOAD
    ensures Run(p, Frame(m, flags)) == (Sync0, [m])
  {
    hide Run, FrameCrc;
    var head := HeadOf(m.kind, flags, |m.payload|);
    var crc := FrameCrc(head, m.payload);
    var tail := [Low8(crc), High8(crc)];
    PlenOf(m.kind, flags, |m.payload|);
    RunSync(p);
    RunHead(head, 4);
    assert head[..4] == head && m.payload[..|m.payload|] == m.payload;
    RunQuiet(p, [SYNC0, SYNC1], head);
    var q := Run(Head([]), head).0;
    if |m.payload| > 0 { RunPayload(head, m.payload, |m.payload|); } else { RunNothing(q, m.payload); }
    RunQuiet(p, [SYNC0, SYNC1] + head, m.payload);
    RunCheck(head, m.payload);
    RunQuiet(p, [SYNC0, SYNC1] + head + m.payload, tail);
  }

  lemma {:induction false} PlenOf(kind: Byte, flags: Byte, n: Half)
    ensures Plen(HeadOf(kind, flags, n)) == n
  {
  }

  function Wire(ms: seq<Msg>): seq<Byte>
    requires forall i :: 0 <= i < |ms| ==> |ms[i].payload| <= MAX_PAYLOAD
  {
    if ms == [] then [] else Wire(ms[..|ms| - 1]) + Frame(ms[|ms| - 1], 0)
  }

  /** Any sequence of messages sent back to back arrives in order and unchanged. */
  lemma {:induction false} AllTold(p: Parser, ms: seq<Msg>)
    requires (p == Sync0 || p == Sync1) && forall i :: 0 <= i < |ms| ==> |ms[i].payload| <= MAX_PAYLOAD
    ensures Run(p, Wire(ms)).1 == ms && (ms != [] ==> Run(p, Wire(ms)).0 == Sync0)
    ensures ms == [] ==> Run(p, Wire(ms)).0 == p
  {
    hide Run, Frame;
    if ms == [] {
      RunNothing(p, Wire(ms));
    } else {
      var n := |ms| - 1;
      AllTold(p, ms[..n]);
      RunJoin(p, Wire(ms[..n]), Frame(ms[n], 0));
      FrameTold(Run(p, Wire(ms[..n])).0, ms[n], 0);
    }
  }

  // ---- soundness -----------------------------------------------------------------------------

  /** The bytes a parser state stands for: the frame recognised so far. */
  function Partial(p: Parser): seq<Byte> {
    match p
    case Sync0 => []
    case Sync1 => [SYNC0]
    case Head(h) => [SYNC0, SYNC1] + h
    case Payload(h, b) => [SYNC0, SYNC1] + h + b
    case Check(h, b, lo) => [SYNC0, SYNC1] + h + b + if lo.Some? then [lo.value] else []
  }

  ghost predicate EndsWith(s: seq<Byte>, t: seq<Byte>) {
    |t| <= |s| && s[|s| - |t|..] == t
  }

  lemma {:induction false} EndsMore(s: seq<Byte>, t: seq<Byte>, b: Byte)
    requires EndsWith(s, t)
    ensures EndsWith(s + [b], t + [b])
  {
  }

  lemma {:induction false} StepReflects(p: Parser, s: seq<Byte>, b: Byte)
    requires Ok(p) && EndsWith(s, Partial(p))
    ensures EndsWith(s + [b], Partial(Step(p, b).0))
    ensures forall m :: m in Step(p, b).1 ==> |m.payload| <= MAX_PAYLOAD && exists flags :: EndsWith(s + [b], Frame(m, flags))
  {
    EndsMore(s, Partial(p), b);
    match p
    case Sync0 =>
    case Sync1 => assert b == SYNC1 ==> [SYNC0] + [b] == [SYNC0, SYNC1] + [];
    case Head(h) => HeadReflects(h, b, s);
    case Payload(h, buf) =>
      assert [SYNC0, SYNC1] + h + buf + [b] == [SYNC0, SYNC1] + h + (buf + [b]);
      var t := [SYNC0, SYNC1] + h + (buf + [b]);
      assert t + [] == t;
    case Check(h, buf, lo) =>
      var t := [SYNC0, SYNC1] + h + buf;
      if lo == None { assert t + [] + [b] == t + [b]; } else { CheckReflects(h, buf, lo.value, b, s); }
  }

  lemma {:induction false} HeadReflects(h: seq<Byte>, b: Byte, s: seq<Byte>)
    requires |h| < 4 && EndsWith(s + [b], [SYNC0, SYNC1] + h + [b])
    ensures EndsWith(s + [b], Partial(Step(Head(h), b).0))
  {
    var t := [SYNC0, SYNC1] + h + [b];
    assert t == [SYNC0, SYNC1] + (h + [b]);
    assert t + [] == t && t + [] + [] == t;
  }

  lemma {:induction false} CheckReflects(h: seq<Byte>, buf: seq<Byte>, lo: Byte, b: Byte, s: seq<Byte>)
    requires |h| == 4 && |buf| == Plen(h) <= MAX_PAYLOAD
    requires EndsWith(s + [b], [SYNC0, SYNC1] + h + buf + [lo] + [b])
    ensures forall m :: m in Step(Check(h, buf, Some(lo)), b).1 ==>
              |m.payload| <= MAX_PAYLOAD && exists flags :: EndsWith(s + [b], Frame(m, flags))
  {
    hide FrameCrc;
    if Both(lo, b) == FrameCrc(h, buf) {
      var m := Msg(h[0], buf);
      assert h == HeadOf(m.kind, h[1], |buf|);
      assert [SYNC0, SYNC1] + h + buf + [lo] + [b] == Frame(m, h[1]);
    }
  }

  /** Whatever was received since start-up, the parser holds exactly the frame it is in the middle of. */
  lemma {:induction false} RunReflects(s: seq<Byte>)
    ensures EndsWith(s, Partial(Run(Sync0, s).0))
  {
    hide Run, Step;
    if s == [] {
      RunNothing(Sync0, s);
    } else {
      var n := |s| - 1;
      assert s == s[..n] + [s[n]];
      RunReflects(s[..n]);
      RunJoin(Sync0, s[..n], [s[n]]);
      RunOne(Run(Sync0, s[..n]).0, s[n]);
      StepReflects(Run(Sync0, s[..n]).0, s[..n], s[n]);
    }
  }

  /** A message is told only at the last byte of a frame whose every byte, in one piece, was just
      received: length, payload and CRC as sent. */
  lemma {:induction false} OnlyWholeFrames(s: seq<Byte>, b: Byte, m: Msg)
    requires m in Step(Run(Sync0, s).0, b).1
    ensures |m.payload| <= MAX_PAYLOAD && exists flags :: EndsWith(s + [b], Frame(m, flags))
  {
    hide Run, Step, Frame;
    RunReflects(s);
    StepReflects(Run(Sync0, s).0, s, b);
  }

  // ---- resynchronisation ---------------------------------------------------------------------

  /** Bytes until the parser is certainly looking for a new frame. */
  function Left(p: Parser): (n: nat)
    requires Ok(p)
    ensures n < FRAME_MAX
  {
    match p
    case Sync0 => 0
    case Sync1 => 1031
    case Head(h) => 4 - |h| + MAX_PAYLOAD + 2
    case Payload(h, b) => Plen(h) - |b| + 2
    case Check(_, _, lo) => if lo == None then 2 else 1
  }

  lemma {:induction false} StepNearer(p: Parser, b: Byte)
    requires Ok(p) && b != SYNC0
    ensures Left(p) == 0 ==> Left(Step(p, b).0) == 0
    ensures Left(p) > 0 ==> Left(Step(p, b).0) < Left(p)
  {
    hide FrameCrc;
  }

  lemma {:induction false} Settles(p: Parser, s: seq<Byte>)
    requires Ok(p) && SYNC0 !in s && |s| >= Left(p)
    ensures Run(p, s).0 == Sync0
    decreases |s|
  {
    hide Step;
    if s == [] {
      OnlySync0(p);
    } else {
      StepNearer(p, s[0]);
      Settles(Step(p, s[0]).0, s[1..]);
    }
  }

  lemma {:induction false} OnlySync0(p: Parser)
    requires Ok(p) && Left(p) == 0
    ensures p == Sync0
  {
  }

  /** From any state at all, one frame's length of bytes without A5, a boot banner say, and everything
      sent after it arrives. */
  lemma {:induction false} Resynchronises(p: Parser, noise: seq<Byte>, ms: seq<Msg>)
    requires Ok(p) && SYNC0 !in noise && |noise| >= FRAME_MAX
    requires forall i :: 0 <= i < |ms| ==> |ms[i].payload| <= MAX_PAYLOAD
    ensures Run(p, noise).0 == Sync0
    ensures Run(p, noise + Wire(ms)).1 == Run(p, noise).1 + ms
  {
    hide Run, Wire;
    Settles(p, noise);
    RunJoin(p, noise, Wire(ms));
    AllTold(Sync0, ms);
  }
}
