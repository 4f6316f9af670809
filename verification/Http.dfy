/** The HTTP/1.1 response parser, byte by byte, and the framings of a body it undoes. */
module Http {
  import opened Prelude

  const LINE_MAX := 512
  const MAX_URL := 256
  const CR := 13
  const LF := 10

  datatype St = Status | Headers | Body | ChunkSize | ChunkData | ChunkCrlf | Trailers | Done

  /** What the head of the response said. */
  datatype Head = Head(status: nat, gotStatus: bool, chunked: bool, haveLength: bool, closeAfter: bool,
                       redirecting: bool, haveLocation: bool)

  /** The parser; `out` is history: the body bytes for a sink that does not abort the response. */
  datatype Parser = Parser(st: St, line: seq<Byte>, over: bool, head: Head, remaining: nat, err: bool, out: seq<Byte>)

  function NoHead(): Head {
    Head(0, false, false, false, false, false, false)
  }

  function Start(): Parser {
    Parser(Status, [], false, NoHead(), 0, false, [])
  }

  function Fail(p: Parser): Parser {
    p.(err := true)
  }

  predicate InLine(st: St) {
    st.Status? || st.Headers? || st.ChunkSize? || st.Trailers?
  }

  ghost predicate Ok(p: Parser) {
    && |p.line| <= LINE_MAX && p.remaining < 0x1_0000_0000
    && (p.st.Body? && p.head.haveLength ==> p.remaining > 0)
    && (p.st.ChunkData? ==> p.remaining > 0)
    && (!InLine(p.st) ==> p.line == [] && !p.over)
  }

  // ---- text ----------------------------------------------------------------------------------

  function Lower(c: Byte): Byte {
    if 'A' as int <= c <= 'Z' as int then c + 32 else c
  }

  /** ieq, against a lower-case word. */
  predicate Ieq(a: seq<Byte>, lit: string) {
    |a| == |lit| && forall i :: 0 <= i < |a| ==> Lower(a[i]) == lit[i] as int
  }

  function IndexOf(s: seq<Byte>, c: Byte): (i: nat)
    ensures i <= |s| && (i < |s| ==> s[i] == c)
  {
    if s == [] || s[0] == c then 0 else 1 + IndexOf(s[1..], c)
  }

  predicate Blank(c: Byte) {
    c == ' ' as int || c == 9
  }

  function TrimLeft(s: seq<Byte>): seq<Byte> {
    if s != [] && Blank(s[0]) then TrimLeft(s[1..]) else s
  }

  function TrimRight(s: seq<Byte>): seq<Byte> {
    if s != [] && Blank(s[|s| - 1]) then TrimRight(s[..|s| - 1]) else s
  }

  predicate Separates(c: Byte) {
    Blank(c) || c == ',' as int
  }

  function TokenEnd(s: seq<Byte>): (i: nat)
    ensures i <= |s|
  {
    if s == [] || Separates(s[0]) then 0 else 1 + TokenEnd(s[1..])
  }

  /** has_token: tok is one of the comma- or blank-separated tokens. */
  predicate HasToken(v: seq<Byte>, tok: string)
    decreases |v|
  {
    if v == [] then false
    else if Separates(v[0]) then HasToken(v[1..], tok)
    else
      var n := TokenEnd(v);
      Ieq(v[..n], tok) || (n > 0 && HasToken(v[n..], tok))
  }

  function ParseU32(s: seq<Byte>): (r: Option<nat>)
    ensures r.Some? ==> r.value < 0x1_0000_0000
  {
    if s == [] then None else ParseDigits(s, 0)
  }

  function ParseDigits(s: seq<Byte>, v: nat): (r: Option<nat>)
    requires v < 0x1_0000_0000
    ensures r.Some? ==> r.value < 0x1_0000_0000
    decreases |s|
  {
    if s == [] then Some(v)
    else if !IsDigit(s[0]) || v > 0x0FFF_FFFF then None
    else ParseDigits(s[1..], v * 10 + (s[0] - '0' as int))
  }

  // ---- the head ------------------------------------------------------------------------------

  function StatusLine(p: Parser, l: seq<Byte>): Parser {
    if l == [] then p
    else if |l| < 12 || l[..7] != ['H' as int, 'T' as int, 'T' as int, 'P' as int, '/' as int, '1' as int, '.' as int] then Fail(p)
    else if l[8] != ' ' as int || !IsDigit(l[9]) || !IsDigit(l[10]) || !IsDigit(l[11]) then Fail(p)
    else
      p.(head := p.head.(status := DigitOf(l[9]) * 100 + DigitOf(l[10]) * 10 + DigitOf(l[11]), gotStatus := true,
                         closeAfter := l[7] == '0' as int), st := Headers)
  }

  /** handle_header_line: the header fields the parser needs. */
  function HeaderLine(p: Parser, l: seq<Byte>): (r: Parser)
    ensures r.st == p.st && r.line == p.line && r.over == p.over && r.out == p.out && r.err == p.err
    ensures p.remaining < 0x1_0000_0000 ==> r.remaining < 0x1_0000_0000
  {
    var k := IndexOf(l, ':' as int);
    if k == |l| then p
    else
      var name, v := l[..k], TrimRight(TrimLeft(l[k + 1..]));
      if Ieq(name, "content-length") then
        if ParseU32(v).Some? then p.(head := p.head.(haveLength := true), remaining := ParseU32(v).value) else p
      else if Ieq(name, "transfer-encoding") then
        if HasToken(v, "chunked") then p.(head := p.head.(chunked := true)) else p
      else if Ieq(name, "connection") then
        if HasToken(v, "close") then p.(head := p.head.(closeAfter := true))
        else if HasToken(v, "keep-alive") then p.(head := p.head.(closeAfter := false))
        else p
      else if Ieq(name, "location") then
        if |v| < MAX_URL then p.(head := p.head.(haveLocation := true)) else p
      else p
  }

  predicate IsRedirect(status: nat) {
    status == 301 || status == 302 || status == 303 || status == 307 || status == 308
  }

  /** headers_done: how the body is framed. An interim response starts the parser over. */
  function HeadersDone(p: Parser): Parser {
    if 100 <= p.head.status < 200 then Start().(out := p.out)
    else
      var h := p.head.(redirecting := IsRedirect(p.head.status) && p.head.haveLocation);
      if h.status == 304 || h.status == 204 then p.(head := h, st := Done)
      else if h.chunked then p.(head := h, st := ChunkSize)
      else if h.haveLength then p.(head := h, st := if p.remaining > 0 then Body else Done)
      else p.(head := h.(closeAfter := true), st := Body)
  }

  // ---- chunk sizes ---------------------------------------------------------------------------

  /** Hex digits the text starts with. */
  function HexDigits(s: seq<Byte>): (n: nat)
    ensures n <= |s|
  {
    if s == [] || HexValue(s[0]) == None then 0 else 1 + HexDigits(s[1..])
  }

  /** Their value; none when it would not fit 32 bits. */
  function HexOf(s: seq<Byte>, v: nat): (r: Option<nat>)
    requires v < 0x1_0000_0000
    ensures r.Some? ==> r.value < 0x1_0000_0000
    decreases |s|
  {
    if s == [] || HexValue(s[0]) == None then Some(v)
    else if v > 0x0FFF_FFFF then None
    else HexOf(s[1..], v * 16 + HexValue(s[0]).value)
  }

  function SizeLine(p: Parser, l: seq<Byte>): Parser {
    if l == [] then p
    else if HexOf(l, 0) == None || HexDigits(l) == 0 then Fail(p)
    else
      var n := HexOf(l, 0).value;
      p.(remaining := n, st := if n > 0 then ChunkData else Trailers)
  }

  // ---- one byte ------------------------------------------------------------------------------

  function StripCr(l: seq<Byte>): seq<Byte> {
    if l != [] && l[|l| - 1] == CR then l[..|l| - 1] else l
  }

  /** A line feed: the line is acted on and the buffer emptied. */
  function LineEnd(p: Parser): Parser {
    var l := StripCr(p.line);
    var q := p.(line := [], over := false);
    match p.st
    case Status => if p.over then Fail(q) else StatusLine(q, l)
    case Headers => if l == [] then HeadersDone(q) else if p.over then q else HeaderLine(q, l)
    case ChunkSize => if p.over then Fail(q) else SizeLine(q, l)
    case Trailers => if l == [] then q.(st := Done) else q
    case _ => q
  }

  /** Body bytes go to the sink unless the response is a redirect being followed. */
  function Deliver(p: Parser, b: seq<Byte>): Parser {
    if p.head.redirecting then p else p.(out := p.out + b)
  }

  function Step(p: Parser, b: Byte): (r: Parser)
    requires Ok(p)
  {
    if p.err || p.st.Done? then p
    else match p.st
      case Body =>
        var q := Deliver(p, [b]);
        if p.head.haveLength then q.(remaining := p.remaining - 1, st := if p.remaining == 1 then Done else Body) else q
      case ChunkData =>
        Deliver(p, [b]).(remaining := p.remaining - 1, st := if p.remaining == 1 then ChunkCrlf else ChunkData)
      case ChunkCrlf => if b == LF then p.(st := ChunkSize) else if b == CR then p else Fail(p)
      case _ =>
        if b == LF then LineEnd(p)
        else if |p.line| < LINE_MAX then p.(line := p.line + [b])
        else p.(over := true)
  }

  lemma {:induction false} StepOk(p: Parser, b: Byte)
    requires Ok(p)
    ensures Ok(Step(p, b))
  {
    hide StatusLine, HeaderLine, HexOf, HexDigits;
    if !p.err && InLine(p.st) && b == LF { LineEndOk(p); }
  }

  lemma {:induction false} LineEndOk(p: Parser)
    requires Ok(p) && InLine(p.st)
    ensures Ok(LineEnd(p))
  {
    hide HexDigits, HexValue, Ieq, HasToken, ParseU32, IndexOf, TrimLeft, TrimRight;
  }

  /** The parser after some bytes: it stops, and leaves the rest, once the message is complete. */
  function Run(p: Parser, s: seq<Byte>): (r: Parser)
    requires Ok(p)
    ensures Ok(r)
    decreases |s|
  {
    if s == [] then p
    else
      StepOk(p, s[0]);
      Run(Step(p, s[0]), s[1..])
  }

  predicate Stopped(p: Parser) {
    p.err || p.st.Done?
  }

  lemma {:induction false} RunJoin(p: Parser, a: seq<Byte>, b: seq<Byte>)
    requires Ok(p)
    ensures Run(p, a + b) == Run(Run(p, a), b)
    decreases |a|
  {
    hide Step, Ok;
    if a == [] {
      assert a + b == b;
    } else {
      StepOk(p, a[0]);
      assert (a + b)[1..] == a[1..] + b;
      RunJoin(Step(p, a[0]), a[1..], b);
    }
  }

  lemma {:induction false} RunStopped(p: Parser, s: seq<Byte>)
    requires Ok(p) && Stopped(p)
    ensures Run(p, s) == p
    decreases |s|
  {
    if s != [] { RunStopped(p, s[1..]); }
  }

  lemma {:induction false} RunOne(p: Parser, b: Byte)
    requires Ok(p)
    ensures Run(p, [b]) == Step(p, b)
  {
    hide Step, Ok;
    assert [b][1..] == [];
  }

  // ---- lines ---------------------------------------------------------------------------------

  const CRLF := [CR, LF]

  /** A parser about to read a line. */
  predicate Fresh(p: Parser) {
    InLine(p.st) && p.line == [] && !p.over && !p.err
  }

  /** The line buffer after a text without line feeds: its first LINE_MAX bytes. */
  lemma {:induction false} LineGrows(p: Parser, s: seq<Byte>)
    requires Ok(p) && Fresh(p) && LF !in s
    ensures Run(p, s) == p.(line := if |s| <= LINE_MAX then s else s[..LINE_MAX], over := |s| > LINE_MAX)
  {
    if s == [] {
    } else {
      hide Run, LineEnd;
      var n := |s| - 1;
      LineGrows(p, s[..n]);
      assert s == s[..n] + [s[n]];
      RunJoin(p, s[..n], [s[n]]);
      RunOne(Run(p, s[..n]), s[n]);
      assert |s| > LINE_MAX ==> s[..LINE_MAX] == s[..n][..LINE_MAX];
      assert |s| == LINE_MAX ==> s[..LINE_MAX] == s;
    }
  }

  /** A whole line and its CR LF. */
  lemma {:induction false} LineFed(p: Parser, l: seq<Byte>)
    requires Ok(p) && Fresh(p) && LF !in l
    ensures |l| < LINE_MAX ==> Ok(p.(line := l + [CR])) && Run(p, l + CRLF) == LineEnd(p.(line := l + [CR]))
    ensures |l| >= LINE_MAX ==>
              var q := p.(line := (l + [CR])[..LINE_MAX], over := true); Ok(q) && Run(p, l + CRLF) == LineEnd(q)
  {
    hide LineEnd, Run;
    LineGrows(p, l + [CR]);
    assert l + CRLF == (l + [CR]) + [LF];
    RunJoin(p, l + [CR], [LF]);
    RunOne(Run(p, l + [CR]), LF);
    assert |l| < LINE_MAX ==> |l + [CR]| <= LINE_MAX;
  }

  lemma {:induction false} Stripped(l: seq<Byte>)
    ensures StripCr(l + [CR]) == l
  {
  }

  /** Before its last byte a line has not been acted on. */
  lemma {:induction false} LineOpen(p: Parser, l: seq<Byte>)
    requires Ok(p) && Fresh(p) && LF !in l
    ensures !Stopped(Run(p, l + [CR]))
  {
    hide Run;
    LineGrows(p, l + [CR]);
  }

  // ---- chunked bodies, section 4.1 of RFC 7230 -----------------------------------------------

  /** One chunk as sent: its size in hex, an extension, its data. */
  datatype Chunk = Chunk(size: seq<Byte>, ext: seq<Byte>, data: seq<Byte>)

  predicate AllHex(s: seq<Byte>) { forall i :: 0 <= i < |s| ==> HexValue(s[i]).Some? }

  /** The number a string of hex digits denotes. */
  function HexNumber(s: seq<Byte>): nat
    requires AllHex(s)
  {
    if s == [] then 0 else 16 * HexNumber(s[..|s| - 1]) + HexValue(s[|s| - 1]).value
  }

  /** The size of a chunk is its digits' number; only what needs more than 32 bits is refused. */
  lemma {:induction false} HexOfIs(s: seq<Byte>)
    requires AllHex(s)
    ensures HexDigits(s) == |s| && HexOf(s, 0) == if HexNumber(s) < 0x1_0000_0000 then Some(HexNumber(s)) else None
  {
    if s != [] {
      var n := |s| - 1;
      HexOfIs(s[..n]);
      assert s == s[..n] + [s[n]];
      HexOfMore(s[..n], s[n], 0);
    }
  }

  lemma {:induction false} HexOfMore(s: seq<Byte>, c: Byte, v: nat)
    requires AllHex(s) && HexValue(c).Some? && v < 0x1_0000_0000
    ensures HexDigits(s + [c]) == |s| + 1
    ensures HexOf(s + [c], v) == match HexOf(s, v)
                                 case None => None
                                 case Some(w) => if w <= 0x0FFF_FFFF then Some(16 * w + HexValue(c).value) else None
    decreases |s|
  {
    hide HexValue;
    if s == [] {
      assert (s + [c])[1..] == [];
    } else {
      assert (s + [c])[1..] == s[1..] + [c];
      HexOfMore(s[1..], c, if v <= 0x0FFF_FFFF then v * 16 + HexValue(s[0]).value else 0);
    }
  }

  /** A size line of length n: hex digits, then nothing or something that is not one. */
  ghost predicate SizeText(size: seq<Byte>, ext: seq<Byte>, n: nat) {
    && size != [] && AllHex(size) && HexNumber(size) == n < 0x1_0000_0000
    && (ext != [] ==> HexValue(ext[0]) == None) && LF !in size && LF !in ext
    && |size| + |ext| < LINE_MAX
  }

  ghost predicate ChunkOk(c: Chunk) {
    c.data != [] && SizeText(c.size, c.ext, |c.data|)
  }

  function ChunkBytes(c: Chunk): seq<Byte> {
    c.size + c.ext + CRLF + c.data + CRLF
  }

  function Chunks(cs: seq<Chunk>): seq<Byte> {
    if cs == [] then [] else Chunks(cs[..|cs| - 1]) + ChunkBytes(cs[|cs| - 1])
  }

  function Content(cs: seq<Chunk>): seq<Byte> {
    if cs == [] then [] else Content(cs[..|cs| - 1]) + cs[|cs| - 1].data
  }

  lemma {:induction false} SizeRead(size: seq<Byte>, ext: seq<Byte>, v: nat)
    requires v < 0x1_0000_0000 && HexDigits(size) == |size| && (ext != [] ==> HexValue(ext[0]) == None)
    ensures HexDigits(size + ext) == |size| && HexOf(size + ext, v) == HexOf(size, v)
    decreases |size|
  {
    hide HexValue;
    if size == [] {
      assert size + ext == ext;
    } else {
      assert (size + ext)[1..] == size[1..] + ext;
      SizeRead(size[1..], ext, if v <= 0x0FFF_FFFF then v * 16 + HexValue(size[0]).value else 0);
    }
  }

  lemma {:induction false} SizeFed(p: Parser, size: seq<Byte>, ext: seq<Byte>, n: nat)
    requires Ok(p) && Fresh(p) && p.st.ChunkSize? && SizeText(size, ext, n)
    ensures Run(p, size + ext + CRLF) == p.(remaining := n, st := if n > 0 then ChunkData else Trailers)
  {
    hide Run, HexOf, HexDigits, HexValue, StripCr, HexNumber;
    HexOfIs(size);
    SizeRead(size, ext, 0);
    LineFed(p, size + ext);
    Stripped(size + ext);
  }

  /** Data bytes, all of the chunk's or only some. */
  lemma {:induction false} DataFed(p: Parser, d: seq<Byte>)
    requires Ok(p) && p.st.ChunkData? && !p.err && 0 < |d| <= p.remaining
    ensures Run(p, d) == Deliver(p, d).(remaining := p.remaining - |d|, st := if |d| == p.remaining then ChunkCrlf else ChunkData)
    decreases |d|
  {
    hide Run;
    var n := |d| - 1;
    if n == 0 {
      assert d == [d[0]];
      RunOne(p, d[0]);
    } else {
      DataFed(p, d[..n]);
      assert d == d[..n] + [d[n]];
      RunJoin(p, d[..n], [d[n]]);
      RunOne(Run(p, d[..n]), d[n]);
      DeliverJoin(p, d[..n], [d[n]]);
    }
  }

  lemma {:induction false} DeliverJoin(p: Parser, a: seq<Byte>, b: seq<Byte>)
    ensures Deliver(p, a + b).out == if p.head.redirecting then p.out else (p.out + a) + b
  {
    assert p.out + (a + b) == (p.out + a) + b;
  }

  lemma {:induction false} ChunkFed(p: Parser, c: Chunk)
    requires Ok(p) && Fresh(p) && p.st.ChunkSize? && ChunkOk(c)
    ensures Run(p, ChunkBytes(c)) == Deliver(p, c.data).(remaining := 0)
  {
    hide Run, SizeText, Step;
    SizeFed(p, c.size, c.ext, |c.data|);
    var head := c.size + c.ext + CRLF;
    var q := Run(p, head);
    RunJoin(p, head, c.data);
    DataFed(q, c.data);
    RunJoin(p, head + c.data, CRLF);
    CrlfFed(Run(p, head + c.data));
  }

  lemma {:induction false} CrlfFed(p: Parser)
    requires Ok(p) && p.st.ChunkCrlf? && !p.err
    ensures Run(p, CRLF) == p.(st := ChunkSize)
  {
    hide Run;
    assert CRLF == [CR] + [LF];
    RunJoin(p, [CR], [LF]);
    RunOne(p, CR);
    RunOne(p, LF);
  }

  lemma {:induction false} ChunksFed(p: Parser, cs: seq<Chunk>)
    requires Ok(p) && Fresh(p) && p.st.ChunkSize? && (cs == [] ==> p.remaining == 0)
    requires forall i :: 0 <= i < |cs| ==> ChunkOk(cs[i])
    ensures Run(p, Chunks(cs)) == Deliver(p, Content(cs)).(remaining := 0)
    decreases |cs|
  {
    hide ChunkOk, ChunkBytes;
    if cs == [] {
      assert p.out + [] == p.out;
    } else {
      hide Run;
      var n := |cs| - 1;
      if n > 0 { ChunksFed(p, cs[..n]); } else { NoChunks(p, cs[..n]); }
      RunJoin(p, Chunks(cs[..n]), ChunkBytes(cs[n]));
      ChunkFed(Run(p, Chunks(cs[..n])), cs[n]);
      DeliverJoin(p, Content(cs[..n]), cs[n].data);
    }
  }

  lemma {:induction false} NoChunks(p: Parser, cs: seq<Chunk>)
    requires Ok(p) && cs == []
    ensures Run(p, Chunks(cs)) == p && Deliver(p, Content(cs)) == p
  {
    assert p.out + [] == p.out;
  }

  function Lines(ls: seq<seq<Byte>>): seq<Byte> {
    if ls == [] then [] else Lines(ls[..|ls| - 1]) + ls[|ls| - 1] + CRLF
  }

  ghost predicate LineText(l: seq<Byte>) {
    l != [] && LF !in l
  }

  lemma {:induction false} TrailersFed(p: Parser, ls: seq<seq<Byte>>)
    requires Ok(p) && Fresh(p) && p.st.Trailers? && forall i :: 0 <= i < |ls| ==> LineText(ls[i])
    ensures Run(p, Lines(ls)) == p
    decreases |ls|
  {
    if ls != [] {
      hide Run;
      var n := |ls| - 1;
      TrailersFed(p, ls[..n]);
      assert Lines(ls) == Lines(ls[..n]) + (ls[n] + CRLF);
      RunJoin(p, Lines(ls[..n]), ls[n] + CRLF);
      TrailerFed(p, ls[n]);
    }
  }

  lemma {:induction false} TrailerFed(p: Parser, l: seq<Byte>)
    requires Ok(p) && Fresh(p) && p.st.Trailers? && LineText(l)
    ensures Run(p, l + CRLF) == p
  {
    hide Run;
    LineFed(p, l);
    Stripped(l);
    if |l| >= LINE_MAX { assert |StripCr((l + [CR])[..LINE_MAX])| >= LINE_MAX - 1; }
  }

  /** A chunked body: chunks, a last chunk of size zero, trailers, an empty line. */
  function ChunkedBody(cs: seq<Chunk>, size: seq<Byte>, ext: seq<Byte>, trailers: seq<seq<Byte>>): seq<Byte> {
    Chunks(cs) + (size + ext + CRLF) + Lines(trailers) + CRLF
  }

  /** Any chunking of a body, with any extensions and trailers, gives exactly the body, and the parser
      stops on the very last byte of the message. */
  lemma {:induction false} ChunkedRecovered(p: Parser, cs: seq<Chunk>, size: seq<Byte>, ext: seq<Byte>, trailers: seq<seq<Byte>>)
    requires Ok(p) && Fresh(p) && p.st.ChunkSize? && (forall i :: 0 <= i < |cs| ==> ChunkOk(cs[i]))
    requires SizeText(size, ext, 0) && forall i :: 0 <= i < |trailers| ==> LineText(trailers[i])
    ensures var m := ChunkedBody(cs, size, ext, trailers);
            && Run(p, m) == Deliver(p, Content(cs)).(remaining := 0, st := Done)
            && |m| > 0 && !Stopped(Run(p, m[..|m| - 1]))
  {
    hide Run, SizeText, ChunkOk, Step;
    if cs == [] { NoChunks(p, cs); } else { ChunksFed(p, cs); }
    var a := Run(p, Chunks(cs));
    var line := size + ext + CRLF;
    RunJoin(p, Chunks(cs), line);
    SizeFed(a, size, ext, 0);
    var t := Deliver(p, Content(cs)).(remaining := 0, st := Trailers);
    assert Run(a, line) == t;
    RunJoin(p, Chunks(cs) + line, Lines(trailers));
    TrailersFed(t, trailers);
    var m, pre := ChunkedBody(cs, size, ext, trailers), Chunks(cs) + line + Lines(trailers);
    RunJoin(p, pre, CRLF);
    LastLine(t);
    assert m[..|m| - 1] == pre + [CR];
    RunJoin(p, pre, [CR]);
  }

  lemma {:induction false} LastLine(t: Parser)
    requires Ok(t) && Fresh(t) && t.st.Trailers?
    ensures Run(t, CRLF) == t.(st := Done) && !Stopped(Run(t, [CR]))
  {
    hide Run;
    LineFed(t, []);
    Stripped([]);
    assert [] + CRLF == CRLF && [] + [CR] == [CR];
    LineOpen(t, []);
  }

  /** A body of the announced length. */
  lemma {:induction false} LengthRecovered(p: Parser, body: seq<Byte>)
    requires Ok(p) && p.st.Body? && p.head.haveLength && !p.err && 0 < |body| <= p.remaining
    ensures Run(p, body) == Deliver(p, body).(remaining := p.remaining - |body|, st := if |body| == p.remaining then Done else Body)
    ensures !Stopped(Run(p, body[..|body| - 1]))
    decreases |body|
  {
    hide Run;
    var n := |body| - 1;
    if n == 0 {
      assert body == [body[0]];
      RunOne(p, body[0]);
      RunNothing(p, body[..0]);
    } else {
      LengthRecovered(p, body[..n]);
      assert body == body[..n] + [body[n]];
      RunJoin(p, body[..n], [body[n]]);
      RunOne(Run(p, body[..n]), body[n]);
      DeliverJoin(p, body[..n], [body[n]]);
    }
  }

  lemma {:induction false} RunNothing(p: Parser, s: seq<Byte>)
    requires Ok(p) && s == []
    ensures Run(p, s) == p
  {
  }

  /** A body that ends with the connection never stops the parser. */
  lemma {:induction false} UntilClose(p: Parser, body: seq<Byte>)
    requires Ok(p) && p.st.Body? && !p.head.haveLength && !p.err
    ensures Run(p, body) == Deliver(p, body)
    decreases |body|
  {
    if body == [] {
      assert p.out + [] == p.out;
    } else {
      hide Run;
      var n := |body| - 1;
      UntilClose(p, body[..n]);
      assert body == body[..n] + [body[n]];
      RunJoin(p, body[..n], [body[n]]);
      RunOne(Run(p, body[..n]), body[n]);
      DeliverJoin(p, body[..n], [body[n]]);
    }
  }

  // ---- whole responses -----------------------------------------------------------------------

  /** The header lines' effect; a line longer than the buffer is one the parser cannot need. */
  function HeaderLines(p: Parser, ls: seq<seq<Byte>>): (r: Parser)
    ensures r.st == p.st && r.line == p.line && r.over == p.over && r.out == p.out && r.err == p.err
    ensures p.remaining < 0x1_0000_0000 ==> r.remaining < 0x1_0000_0000
  {
    if ls == [] then p
    else
      var q := HeaderLines(p, ls[..|ls| - 1]);
      if |ls[|ls| - 1]| < LINE_MAX then HeaderLine(q, ls[|ls| - 1]) else q
  }

  function HeadText(status: seq<Byte>, headers: seq<seq<Byte>>): seq<Byte> {
    (status + CRLF) + Lines(headers) + CRLF
  }

  lemma {:induction false} HeadersFed(p: Parser, ls: seq<seq<Byte>>)
    requires Ok(p) && Fresh(p) && p.st.Headers? && forall i :: 0 <= i < |ls| ==> LineText(ls[i])
    ensures Run(p, Lines(ls)) == HeaderLines(p, ls)
    decreases |ls|
  {
    hide HeaderLine;
    if ls != [] {
      hide Run;
      var n := |ls| - 1;
      HeadersFed(p, ls[..n]);
      assert Lines(ls) == Lines(ls[..n]) + (ls[n] + CRLF);
      RunJoin(p, Lines(ls[..n]), ls[n] + CRLF);
      HeaderFed(Run(p, Lines(ls[..n])), ls[n]);
    }
  }

  lemma {:induction false} HeaderFed(p: Parser, l: seq<Byte>)
    requires Ok(p) && Fresh(p) && p.st.Headers? && LineText(l)
    ensures Run(p, l + CRLF) == if |l| < LINE_MAX then HeaderLine(p, l) else p
  {
    hide Run, HeaderLine;
    LineFed(p, l);
    Stripped(l);
    if |l| >= LINE_MAX { assert |StripCr((l + [CR])[..LINE_MAX])| >= LINE_MAX - 1; }
  }

  /** The head of a response leaves the parser where headers_done puts it, on its last byte. */
  lemma {:induction false} HeadFed(p: Parser, status: seq<Byte>, headers: seq<seq<Byte>>)
    requires Ok(p) && Fresh(p) && p.st.Status? && LineText(status) && |status| < LINE_MAX && !StatusLine(p, status).err
    requires forall i :: 0 <= i < |headers| ==> LineText(headers[i])
    ensures Run(p, HeadText(status, headers)) == HeadersDone(HeaderLines(StatusLine(p, status), headers))
    ensures var t := HeadText(status, headers); |t| > 0 && !Stopped(Run(p, t[..|t| - 1]))
  {
    hide Run, HeaderLine, HeaderLines;
    StatusFed(p, status);
    var q := StatusLine(p, status);
    RunJoin(p, status + CRLF, Lines(headers));
    HeadersFed(q, headers);
    var r := HeaderLines(q, headers);
    var pre := (status + CRLF) + Lines(headers);
    RunJoin(p, pre, CRLF);
    EmptyLine(r);
    var t := HeadText(status, headers);
    assert t[..|t| - 1] == pre + [CR];
    RunJoin(p, pre, [CR]);
  }

  lemma {:induction false} StatusFed(p: Parser, status: seq<Byte>)
    requires Ok(p) && Fresh(p) && p.st.Status? && LineText(status) && |status| < LINE_MAX && !StatusLine(p, status).err
    ensures var q := StatusLine(p, status); Run(p, status + CRLF) == q && Ok(q) && Fresh(q) && q.st.Headers? && q.out == p.out
  {
    hide Run;
    LineFed(p, status);
    Stripped(status);
  }

  lemma {:induction false} EmptyLine(r: Parser)
    requires Ok(r) && Fresh(r) && r.st.Headers?
    ensures Run(r, CRLF) == HeadersDone(r) && !Stopped(Run(r, [CR]))
  {
    hide Run, HeadersDone;
    LineFed(r, []);
    Stripped([]);
    assert [] + CRLF == CRLF && [] + [CR] == [CR];
    LineOpen(r, []);
  }

  /** A whole chunked response, from its first byte: an accepting sink is handed exactly the body (or
      nothing, when a redirect is being followed), and the parser stops on the last byte. */
  lemma {:induction false} ChunkedResponse(status: seq<Byte>, headers: seq<seq<Byte>>, cs: seq<Chunk>, size: seq<Byte>,
                                           ext: seq<Byte>, trailers: seq<seq<Byte>>)
    requires LineText(status) && |status| < LINE_MAX && !StatusLine(Start(), status).err
    requires forall i :: 0 <= i < |headers| ==> LineText(headers[i])
    requires HeadersDone(HeaderLines(StatusLine(Start(), status), headers)).st.ChunkSize?
    requires forall i :: 0 <= i < |cs| ==> ChunkOk(cs[i])
    requires SizeText(size, ext, 0) && forall i :: 0 <= i < |trailers| ==> LineText(trailers[i])
    ensures var m := HeadText(status, headers) + ChunkedBody(cs, size, ext, trailers);
            var r := Run(Start(), m);
            && r.st.Done? && !r.err && r.head == HeadersDone(HeaderLines(StatusLine(Start(), status), headers)).head
            && r.out == (if r.head.redirecting then [] else Content(cs))
            && |m| > 0 && !Stopped(Run(Start(), m[..|m| - 1]))
  {
    hide Run, SizeText, ChunkOk, HeaderLines, StatusLine, ChunkedBody;
    HeadFed(Start(), status, headers);
    var p := HeadersDone(HeaderLines(StatusLine(Start(), status), headers));
    HeadOut(status, headers);
    ChunkedRecovered(p, cs, size, ext, trailers);
    var h, b := HeadText(status, headers), ChunkedBody(cs, size, ext, trailers);
    RunJoin(Start(), h, b);
    RunJoin(Start(), h, b[..|b| - 1]);
    assert (h + b)[..|h + b| - 1] == h + b[..|b| - 1];
    assert [] + Content(cs) == Content(cs);
  }

  lemma {:induction false} HeadOut(status: seq<Byte>, headers: seq<seq<Byte>>)
    ensures HeadersDone(HeaderLines(StatusLine(Start(), status), headers)).out == []
    ensures !StatusLine(Start(), status).err ==> !HeadersDone(HeaderLines(StatusLine(Start(), status), headers)).err
    ensures var p := HeadersDone(HeaderLines(StatusLine(Start(), status), headers)); p.line == [] && !p.over
  {
    hide HeaderLine;
  }

  /** A whole response with Content-Length. */
  lemma {:induction false} LengthResponse(status: seq<Byte>, headers: seq<seq<Byte>>, body: seq<Byte>)
    requires LineText(status) && |status| < LINE_MAX && !StatusLine(Start(), status).err
    requires forall i :: 0 <= i < |headers| ==> LineText(headers[i])
    requires var p := HeadersDone(HeaderLines(StatusLine(Start(), status), headers));
             p.st.Body? && p.head.haveLength && p.remaining == |body| > 0
    ensures var m := HeadText(status, headers) + body;
            var r := Run(Start(), m);
            && r.st.Done? && !r.err && r.head == HeadersDone(HeaderLines(StatusLine(Start(), status), headers)).head
            && r.out == (if r.head.redirecting then [] else body)
            && |m| > 0 && !Stopped(Run(Start(), m[..|m| - 1]))
  {
    hide Run, HeaderLines, StatusLine;
    HeadFed(Start(), status, headers);
    var p := HeadersDone(HeaderLines(StatusLine(Start(), status), headers));
    HeadOut(status, headers);
    LengthRecovered(p, body);
    var h := HeadText(status, headers);
    RunJoin(Start(), h, body);
    RunJoin(Start(), h, body[..|body| - 1]);
    assert (h + body)[..|h + body| - 1] == h + body[..|body| - 1];
    assert [] + body == body;
  }
}
