/** The response parser's code: bytes arrive in pieces of any size, lines collect in a buffer, body
    bytes go to the sink in stretches. */
module HttpParser {
  import opened Prelude
  import opened Http
  import H = HttpHead

  /** parse_u32: the decimal value; refused exactly for no text, for anything but digits, and from
      2684354560 on, although larger values fit 32 bits. */
  method ReadU32(s: seq<Byte>) returns (r: Option<nat>)
    ensures r == ParseU32(s)
    ensures r == if s != [] && H.AllDigits(s) && Val(s) < H.U32_LIMIT then Some(Val(s)) else None
  {
    hide Val, H.AllDigits;
    H.ParseU32Is(s);
    if s == [] { return None; }
    var v := 0;
    var i := 0;
    assert s[0..] == s;
    while i < |s|
      invariant 0 <= i <= |s| && 0 <= v < 0x1_0000_0000 && ParseU32(s) == ParseDigits(s[i..], v)
    {
      assert s[i..][1..] == s[i + 1..];
      if !IsDigit(s[i]) || v > 0x0FFF_FFFF { return None; }
      v := v * 10 + (s[i] - '0' as int);
      i := i + 1;
    }
    r := Some(v);
  }

  /** The size of a chunk from its line: too large, no digits, or the value. */
  method ReadSize(l: seq<Byte>) returns (ok: bool, size: nat)
    ensures ok <==> HexOf(l, 0).Some? && HexDigits(l) > 0
    ensures ok ==> HexOf(l, 0) == Some(size)
  {
    size := 0;
    var k := 0;
    assert l[0..] == l;
    while k < |l| && HexValue(l[k]).Some?
      invariant 0 <= k <= |l| && size < 0x1_0000_0000
      invariant HexOf(l, 0) == HexOf(l[k..], size) && HexDigits(l) == k + HexDigits(l[k..])
    {
      assert l[k..][1..] == l[k + 1..];
      if size > 0x0FFF_FFFF { return false, 0; }
      size := size * 16 + HexValue(l[k]).value;
      k := k + 1;
    }
    ok := k > 0;
  }

  /** What the sink answers to a stretch of body, after all it was given before: false aborts. */
  type Sink = (seq<Byte>, seq<Byte>) -> bool

  /** The stretches handed to the sink: it took every one, unless the last aborted the response. */
  ghost predicate Told(sink: Sink, told: seq<seq<Byte>>, aborted: bool) {
    && (forall k :: 0 <= k < |told| - 1 ==> sink(Flat(told[..k]), told[k]))
    && (aborted <==> told != [] && !sink(Flat(told[..|told| - 1]), told[|told| - 1]))
  }

  lemma {:induction false} TellsMore(sink: Sink, told: seq<seq<Byte>>, d: seq<Byte>)
    requires Told(sink, told, false)
    ensures Told(sink, told + [d], !sink(Flat(told), d)) && Flat(told + [d]) == Flat(told) + d
  {
    var more := told + [d];
    assert more[..|told|] == told;
    forall k | 0 <= k < |more| - 1 ensures sink(Flat(more[..k]), more[k]) {
      assert more[..k] == told[..k];
    }
  }

  class Client {
    const sink: Sink
    var st: St
    const line: array<Byte>
    var lineLen: nat
    var over: bool
    var head: Head
    var remaining: nat
    var err: bool
    var aborted: bool
    var body: seq<Byte>
    ghost var told: seq<seq<Byte>>

    ghost predicate Valid()
      reads this, line
    {
      line.Length == LINE_MAX && lineLen <= LINE_MAX && Ok(View()) && Handed()
    }

    /** The body is what the sink was handed. */
    ghost predicate Handed()
      reads this`body, this`told, this`aborted
    {
      Told(sink, told, aborted) && body == Flat(told)
    }

    ghost function View(): Parser
      reads this, line
    {
      Parser(st, if lineLen <= line.Length then line[..lineLen] else [], over, head, remaining, err, body)
    }

    constructor (sink: Sink)
      ensures Valid() && View() == Start() && fresh(line) && !aborted && this.sink == sink
    {
      this.sink := sink;
      line := new Byte[LINE_MAX];
      st, lineLen, over, head, remaining, err, body := Status, 0, false, NoHead(), 0, false, [];
      aborted, told := false, [];
    }

    /** A decision about the whole parser, taken over field by field. */
    method Become(p: Parser)
      requires line.Length == LINE_MAX && p.line == [] && p.out == body
      modifies this`st, this`lineLen, this`over, this`head, this`remaining, this`err
      ensures View() == p && lineLen == 0
    {
      st, lineLen, over, head, remaining, err := p.st, 0, p.over, p.head, p.remaining, p.err;
      assert line[..0] == [];
    }

    /** A line feed. */
    method EndLine()
      requires Valid() && InLine(st) && !err
      modifies this`st, this`lineLen, this`over, this`head, this`remaining, this`err
      ensures Valid() && View() == LineEnd(old(View()))
    {
      hide Handed, StatusLine, HeaderLine, HeadersDone, SizeLine, HexOf, HexDigits;
      LineEndOk(View());
      EndsEmpty(View());
      var n := lineLen;
      if n > 0 && line[n - 1] == CR { n := n - 1; }
      var l := line[..n];
      assert l == StripCr(line[..lineLen]);
      var q := Parser(st, [], false, head, remaining, err, body);
      if st.Status? {
        Become(if over then Fail(q) else StatusLine(q, l));
      } else if st.Headers? {
        Become(if l == [] then HeadersDone(q) else if over then q else HeaderLine(q, l));
      } else if st.ChunkSize? {
        if over { Become(Fail(q)); } else { TakeSize(q, l); }
      } else {
        Become(if l == [] then q.(st := Done) else q);
      }
    }

    method TakeSize(q: Parser, l: seq<Byte>)
      requires line.Length == LINE_MAX && q.line == [] && q.out == body
      modifies this`st, this`lineLen, this`over, this`head, this`remaining, this`err
      ensures View() == SizeLine(q, l) && lineLen == 0
    {
      hide HexOf, HexDigits;
      if l == [] { Become(q); return; }
      var ok, size := ReadSize(l);
      if !ok { Become(Fail(q)); return; }
      Become(q.(remaining := size, st := if size > 0 then ChunkData else Trailers));
    }

    method TakeLineByte(b: Byte)
      requires Valid() && InLine(st) && !err
      modifies this`st, this`lineLen, this`over, this`head, this`remaining, this`err, line
      ensures Valid() && View() == Step(old(View()), b)
    {
      hide Handed, LineEnd;
      if b == LF {
        EndLine();
      } else if lineLen < LINE_MAX {
        ghost var was := line[..lineLen];
        line[lineLen] := b;
        lineLen := lineLen + 1;
        assert line[..lineLen] == was + [b];
      } else {
        over := true;
      }
    }

    /** body_out: false if the sink aborts. */
    method Out(d: seq<Byte>) returns (keep: bool)
      requires Handed() && !aborted
      modifies this`body, this`aborted, this`told
      ensures Handed() && keep == !aborted && (aborted ==> !head.redirecting)
      ensures body == old(body) + if head.redirecting then [] else d
    {
      if head.redirecting {
        assert body + [] == body;
        return true;
      }
      TellsMore(sink, told, d);
      keep := sink(body, d);
      body, aborted, told := body + d, !keep, told + [d];
    }

    /** As much of the body as there is, up to the end of it or of the chunk. */
    method TakeBody(d: seq<Byte>, i: nat) returns (e: nat)
      requires Valid() && !err && !aborted && (st.Body? || st.ChunkData?) && i < |d|
      modifies this`body, this`aborted, this`told, this`remaining, this`st
      ensures Valid() && i < e <= |d| && body == Run(old(View()), d[i..e]).out
      ensures !aborted ==> View() == Run(old(View()), d[i..e])
      ensures !Stopped(Run(old(View()), d[i..e - 1]))
    {
      hide Run, Handed;
      var avail := |d| - i;
      var counted := st.ChunkData? || head.haveLength;
      var take := if counted && remaining < avail then remaining else avail;
      e := i + take;
      ghost var p := View();
      var s := d[i..e];
      assert s[..take - 1] == d[i..e - 1];
      BodyRun(p, s);
      var keep := Out(s);
      if keep && counted {
        remaining := remaining - take;
        if remaining == 0 { st := if st.Body? then Done else ChunkCrlf; }
      }
    }

    /** parse_bytes: the same as the bytes one at a time, however they were cut; it stops on the last
        byte of the message, on the byte that breaks it, or when the sink aborts, and says how many it
        used. The sink was given exactly the body of those. */
    method ParseBytes(d: seq<Byte>) returns (used: nat)
      requires Valid() && !err && !aborted
      modifies this, line
      ensures Valid() && used <= |d| && body == Run(old(View()), d[..used]).out
      ensures !aborted ==> View() == Run(old(View()), d[..used]) && (used == |d| || Stopped(View()))
      ensures used > 0 ==> !Stopped(Run(old(View()), d[..used - 1]))
    {
      hide Run, Step, Ok, LineEnd, Handed;
      ghost var p := View();
      ValidOk();
      used := 0;
      RunNothing(p, d[..0]);
      while used < |d| && !st.Done? && !err && !aborted
        invariant 0 <= used <= |d| && Valid() && Ok(p) && body == Run(p, d[..used]).out
        invariant !aborted ==> View() == Run(p, d[..used])
        invariant used > 0 ==> !Stopped(Run(p, d[..used - 1]))
      {
        used := ParseSome(p, d, used);
      }
    }

    /** One turn: a byte, or a stretch of body. */
    method ParseSome(ghost p: Parser, d: seq<Byte>, i: nat) returns (e: nat)
      requires Valid() && !err && !st.Done? && !aborted && i < |d| && Ok(p) && View() == Run(p, d[..i])
      modifies this`st, this`lineLen, this`over, this`head, this`remaining, this`err, this`body, this`aborted, this`told, line
      ensures Valid() && i < e <= |d| && body == Run(p, d[..e]).out
      ensures !aborted ==> View() == Run(p, d[..e])
      ensures !Stopped(Run(p, d[..e - 1]))
    {
      hide Run, Step, Ok, LineEnd, Handed;
      ghost var q := View();
      e := i + 1;
      assert d[i..i + 1] == [d[i]];
      ValidOk();
      RunNothing(q, d[i..i]);
      RunOne(q, d[i]);
      if st.Body? || st.ChunkData? {
        e := TakeBody(d, i);
      } else if st.ChunkCrlf? {
        CrlfOk(q, d[i]);
        if d[i] == LF { st := ChunkSize; } else if d[i] != CR { err := true; }
      } else {
        TakeLineByte(d[i]);
      }
      Onward(p, q, d, i, e);
    }

    lemma Refused()
      requires Valid()
      ensures aborted ==> !Willing(sink)
    {
    }

    lemma ValidOk()
      requires Valid()
      ensures Ok(View())
    {
    }
  }

  lemma {:induction false} EndsEmpty(p: Parser)
    requires Ok(p) && InLine(p.st)
    ensures LineEnd(p).line == [] && LineEnd(p).out == p.out
  {
    hide StatusLine, HeaderLine, SizeLine, Ok;
    var q := p.(line := [], over := false);
    StatusKeeps(q, StripCr(p.line));
  }

  lemma {:induction false} StatusKeeps(q: Parser, l: seq<Byte>)
    ensures StatusLine(q, l).line == q.line && SizeLine(q, l).line == q.line
    ensures StatusLine(q, l).out == q.out && SizeLine(q, l).out == q.out
  {
    hide HexOf, HexDigits;
  }

  lemma {:induction false} CrlfOk(p: Parser, b: Byte)
    requires Ok(p) && p.st.ChunkCrlf? && !p.err
    ensures Step(p, b) == if b == LF then p.(st := ChunkSize) else if b == CR then p else Fail(p)
    ensures Ok(Step(p, b))
  {
  }

  /** A stretch of body, whichever framing it is in. */
  lemma {:induction false} BodyRun(p: Parser, s: seq<Byte>)
    requires Ok(p) && !p.err && s != [] && (p.st.Body? || p.st.ChunkData?)
    requires p.st.ChunkData? || p.head.haveLength ==> |s| <= p.remaining
    ensures var r := Run(p, s);
            && r.out == p.out + (if p.head.redirecting then [] else s) && r.head == p.head && r.line == [] && !r.over && !r.err
            && (if p.st.ChunkData? || p.head.haveLength then r.remaining == p.remaining - |s| else r.remaining == p.remaining)
            && r.st == if (p.st.ChunkData? || p.head.haveLength) && |s| == p.remaining
                       then (if p.st.Body? then Done else ChunkCrlf) else p.st
    ensures !Stopped(Run(p, s[..|s| - 1]))
  {
    hide Run;
    assert p.out + [] == p.out;
    if p.st.ChunkData? {
      DataFed(p, s);
      if |s| > 1 { DataFed(p, s[..|s| - 1]); } else { RunNothing(p, s[..0]); }
    } else if p.head.haveLength {
      LengthRecovered(p, s);
    } else {
      UntilClose(p, s);
      UntilClose(p, s[..|s| - 1]);
    }
  }

  lemma {:induction false} Onward(p: Parser, q: Parser, d: seq<Byte>, i: nat, e: nat)
    requires Ok(p) && i < e <= |d| && q == Run(p, d[..i]) && !Stopped(Run(q, d[i..e - 1]))
    ensures Run(p, d[..e]) == Run(q, d[i..e]) && !Stopped(Run(p, d[..e - 1]))
  {
    hide Run, Ok;
    assert d[..e] == d[..i] + d[i..e] && d[..e - 1] == d[..i] + d[i..e - 1];
    RunJoin(p, d[..i], d[i..e]);
    RunJoin(p, d[..i], d[i..e - 1]);
  }

  /** Pieces of the wire as the network delivers them, handed to the parser until it stops: the state
      and the body are those of the joined bytes, unless the sink aborts, which then has a front of it. */
  method ParsePieces(pieces: seq<seq<Byte>>, sink: Sink) returns (st: St, err: bool, aborted: bool, body: seq<Byte>)
    ensures var r := Run(Start(), Flat(pieces));
            if aborted then body <= r.out && !Willing(sink) else st == r.st && err == r.err && body == r.out
  {
    hide Run, Ok;
    StartOk();
    var c := new Client(sink);
    RunNothing(Start(), []);
    assert pieces[..0] == [];
    var i := 0;
    while i < |pieces| && !c.aborted
      invariant 0 <= i <= |pieces| && c.Valid() && fresh(c) && fresh(c.line) && c.sink == sink
      invariant c.body <= Run(Start(), Flat(pieces[..i])).out
      invariant !c.aborted ==> c.View() == Run(Start(), Flat(pieces[..i]))
    {
      ghost var p, d := c.View(), pieces[i];
      assert pieces[..i + 1][..i] == pieces[..i];
      c.ValidOk();
      RunJoin(Start(), Flat(pieces[..i]), d);
      if c.err || c.st.Done? {
        RunStopped(p, d);
      } else {
        var used := c.ParseBytes(pieces[i]);
        FeedRest(p, d, used);
      }
      i := i + 1;
    }
    FlatFront(pieces, i);
    RunJoin(Start(), Flat(pieces[..i]), Flat(pieces[i..]));
    OutGrows(Run(Start(), Flat(pieces[..i])), Flat(pieces[i..]));
    if !c.aborted { assert pieces[..i] == pieces; }
    c.Refused();
    st, err, aborted, body := c.st, c.err, c.aborted, c.body;
  }

  /** A sink that never aborts. */
  ghost predicate Willing(sink: Sink) {
    forall before, d :: sink(before, d)
  }

  /** The body of some bytes is a front of the body of more. */
  lemma {:induction false} OutGrows(p: Parser, s: seq<Byte>)
    requires Ok(p)
    ensures p.out <= Run(p, s).out
    decreases |s|
  {
    hide Step, Ok;
    if s != [] {
      StepOk(p, s[0]);
      StepGrows(p, s[0]);
      OutGrows(Step(p, s[0]), s[1..]);
    }
  }

  lemma {:induction false} StepGrows(p: Parser, b: Byte)
    requires Ok(p)
    ensures p.out <= Step(p, b).out
  {
    hide LineEnd;
    if InLine(p.st) { EndsEmpty(p); }
  }

  lemma {:induction false} FeedRest(p: Parser, d: seq<Byte>, used: nat)
    requires Ok(p) && used <= |d|
    ensures Run(p, d[..used]).out <= Run(p, d).out
    ensures used == |d| || Stopped(Run(p, d[..used])) ==> Run(p, d[..used]) == Run(p, d)
  {
    hide Run, Ok;
    var q := Run(p, d[..used]);
    assert d == d[..used] + d[used..];
    RunJoin(p, d[..used], d[used..]);
    OutGrows(q, d[used..]);
    if used == |d| { RunNothing(q, d[used..]); } else if Stopped(q) { RunStopped(q, d[used..]); }
  }

  lemma {:induction false} FlatFront(pieces: seq<seq<Byte>>, i: nat)
    requires i <= |pieces|
    ensures Flat(pieces) == Flat(pieces[..i]) + Flat(pieces[i..])
  {
    if i == |pieces| {
      assert pieces[..i] == pieces && pieces[i..] == [];
    } else {
      var n := |pieces| - 1;
      FlatFront(pieces[..n], i);
      assert pieces[..n][..i] == pieces[..i] && pieces[..n][i..] == pieces[i..][..n - i];
    }
  }

  lemma StartOk()
    ensures Ok(Start())
  {
  }
}
