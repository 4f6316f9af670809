/** What header text frames a body: the parser's decisions stated on the lines as they are sent. */
module HttpHead {
  import opened Prelude
  import opened Http

  // ---- decimal numbers -----------------------------------------------------------------------

  /** The first value parse_u32 turns away. Larger ones still fit 32 bits up to 4294967295. */
  const U32_LIMIT := 2_684_354_560

  predicate AllDigits(s: seq<Byte>) {
    forall i :: 0 <= i < |s| ==> IsDigit(s[i])
  }

  lemma {:induction false} DigitsThen(s: seq<Byte>, c: Byte, v: nat)
    requires v < 0x1_0000_0000
    ensures ParseDigits(s + [c], v) == match ParseDigits(s, v)
                                       case None => None
                                       case Some(w) => if IsDigit(c) && w <= 0x0FFF_FFFF then Some(10 * w + DigitOf(c)) else None
    decreases |s|
  {
    if s == [] {
      assert (s + [c])[1..] == [];
    } else {
      assert (s + [c])[1..] == s[1..] + [c];
      if IsDigit(s[0]) && v <= 0x0FFF_FFFF { DigitsThen(s[1..], c, v * 10 + DigitOf(s[0])); }
    }
  }

  /** parse_u32 gives the decimal value of a text of digits, and refuses exactly the empty text, texts
      with anything but digits, and values of 2684354560 and more. */
  lemma {:induction false} ParseU32Is(s: seq<Byte>)
    ensures ParseU32(s) == if s != [] && AllDigits(s) && Val(s) < U32_LIMIT then Some(Val(s)) else None
  {
    if s != [] { DigitsAre(s); }
  }

  lemma {:induction false} DigitsAre(s: seq<Byte>)
    requires s != []
    ensures ParseDigits(s, 0) == if AllDigits(s) && Val(s) < U32_LIMIT then Some(Val(s)) else None
  {
    var n := |s| - 1;
    assert s == s[..n] + [s[n]];
    DigitsThen(s[..n], s[n], 0);
    if n > 0 { DigitsAre(s[..n]); } else { NoDigits(s[..n]); }
    assert AllDigits(s) <==> AllDigits(s[..n]) && IsDigit(s[n]);
  }

  lemma NoDigits(s: seq<Byte>)
    requires s == []
    ensures ParseDigits(s, 0) == Some(0) && Val(s) == 0
  {
  }

  // ---- header fields as sent -----------------------------------------------------------------

  /** A header field: its name, a colon, blanks, the value, blanks. */
  datatype Field = Field(name: seq<Byte>, pre: seq<Byte>, value: seq<Byte>, post: seq<Byte>)

  predicate AllBlank(s: seq<Byte>) {
    forall i :: 0 <= i < |s| ==> s[i] == 32 || s[i] == 9
  }

  predicate FieldOk(f: Field) {
    && ':' as int !in f.name && AllBlank(f.pre) && AllBlank(f.post)
    && f.value != [] && !Blank(f.value[0]) && !Blank(f.value[|f.value| - 1])
  }

  function FieldText(f: Field): seq<Byte> {
    f.name + [':' as int] + f.pre + f.value + f.post
  }

  lemma {:induction false} IndexFound(s: seq<Byte>, n: nat, c: Byte)
    requires n < |s| && s[n] == c && c !in s[..n]
    ensures IndexOf(s, c) == n
    decreases n
  {
    if n > 0 {
      assert s[0] == s[..n][0];
      assert s[1..][..n - 1] == s[..n][1..];
      IndexFound(s[1..], n - 1, c);
    }
  }

  lemma {:induction false} Trimmed(pre: seq<Byte>, v: seq<Byte>, post: seq<Byte>)
    requires AllBlank(pre) && AllBlank(post) && v != [] && !Blank(v[0]) && !Blank(v[|v| - 1])
    ensures TrimRight(TrimLeft(pre + v + post)) == v
  {
    LeftTrimmed(pre, v + post);
    assert pre + v + post == pre + (v + post);
    RightTrimmed(v, post);
  }

  lemma {:induction false} LeftTrimmed(pre: seq<Byte>, v: seq<Byte>)
    requires AllBlank(pre) && v != [] && !Blank(v[0])
    ensures TrimLeft(pre + v) == v
    decreases |pre|
  {
    if pre == [] {
      assert pre + v == v;
    } else {
      assert (pre + v)[1..] == pre[1..] + v;
      LeftTrimmed(pre[1..], v);
    }
  }

  lemma {:induction false} RightTrimmed(v: seq<Byte>, post: seq<Byte>)
    requires AllBlank(post) && v != [] && !Blank(v[|v| - 1])
    ensures TrimRight(v + post) == v
    decreases |post|
  {
    if post == [] {
      assert v + post == v;
    } else {
      var n := |post| - 1;
      assert (v + post)[..|v + post| - 1] == v + post[..n];
      RightTrimmed(v, post[..n]);
    }
  }

  /** How the parser takes a field apart. */
  lemma {:induction false} FieldTaken(f: Field)
    requires FieldOk(f)
    ensures var l := FieldText(f);
            && IndexOf(l, ':' as int) == |f.name| < |l| && l[..|f.name|] == f.name
            && TrimRight(TrimLeft(l[|f.name| + 1..])) == f.value
  {
    hide Blank, IndexOf, TrimLeft, TrimRight;
    var l := FieldText(f);
    assert l[..|f.name|] == f.name;
    IndexFound(l, |f.name|, ':' as int);
    assert l[|f.name| + 1..] == f.pre + f.value + f.post;
    Trimmed(f.pre, f.value, f.post);
  }

  /** The name of a line, or no name at all. */
  predicate Named(l: seq<Byte>, lit: string) {
    IndexOf(l, ':' as int) < |l| && Ieq(l[..IndexOf(l, ':' as int)], lit)
  }

  // ---- single lines --------------------------------------------------------------------------

  lemma {:induction false} OneName(a: seq<Byte>)
    ensures Ieq(a, "transfer-encoding") ==> !Ieq(a, "content-length")
  {
  }

  /** Transfer-Encoding: chunked. */
  lemma {:induction false} ChunkedLine(p: Parser, f: Field)
    requires FieldOk(f) && Ieq(f.name, "transfer-encoding") && Ieq(f.value, "chunked")
    ensures HeaderLine(p, FieldText(f)) == p.(head := p.head.(chunked := true))
  {
    hide IndexOf, TrimLeft, TrimRight, Ieq, HasToken, FieldText, ParseU32;
    FieldTaken(f);
    OneName(f.name);
    SingleToken(f.value);
  }

  lemma {:induction false} SingleToken(v: seq<Byte>)
    requires Ieq(v, "chunked")
    ensures HasToken(v, "chunked")
  {
    hide Lower;
    forall i | 0 <= i < |v| ensures !Separates(v[i]) {
      LetterLower(v[i]);
    }
    WholeToken(v);
    assert v[..|v|] == v;
  }

  lemma LetterLower(c: Byte)
    ensures Separates(c) ==> Lower(c) == c
  {
  }

  lemma {:induction false} WholeToken(v: seq<Byte>)
    requires forall i :: 0 <= i < |v| ==> !Separates(v[i])
    ensures TokenEnd(v) == |v|
  {
    if v != [] { WholeToken(v[1..]); }
  }

  /** Content-Length: n. */
  lemma {:induction false} LengthLine(p: Parser, f: Field)
    requires FieldOk(f) && Ieq(f.name, "content-length") && AllDigits(f.value) && Val(f.value) < U32_LIMIT
    ensures HeaderLine(p, FieldText(f)) == p.(head := p.head.(haveLength := true), remaining := Val(f.value))
  {
    hide IndexOf, TrimLeft, TrimRight, Ieq, HasToken, FieldText, ParseU32, AllDigits, Val;
    FieldTaken(f);
    ParseU32Is(f.value);
  }

  /** What no header line changes, and what only one by a certain name does. */
  lemma {:induction false} LineKeeps(p: Parser, l: seq<Byte>)
    ensures var q := HeaderLine(p, l);
            && q.head.status == p.head.status && (p.head.chunked ==> q.head.chunked)
            && (!Named(l, "transfer-encoding") ==> q.head.chunked == p.head.chunked)
            && (!Named(l, "content-length") ==> q.head.haveLength == p.head.haveLength && q.remaining == p.remaining)
  {
    hide TrimLeft, TrimRight, HasToken, ParseU32, Ieq, IndexOf, Blank;
    var k := IndexOf(l, ':' as int);
    if k < |l| {
      var name, v := l[..k], TrimRight(TrimLeft(l[k + 1..]));
      if Ieq(name, "content-length") {
      } else if Ieq(name, "transfer-encoding") {
      } else if Ieq(name, "connection") {
      } else if Ieq(name, "location") {
      }
    }
  }

  // ---- whole heads ---------------------------------------------------------------------------

  lemma {:induction false} LinesKeep(p: Parser, ls: seq<seq<Byte>>)
    ensures var q := HeaderLines(p, ls);
            && q.head.status == p.head.status && (p.head.chunked ==> q.head.chunked)
            && ((forall i :: 0 <= i < |ls| ==> !Named(ls[i], "transfer-encoding")) ==> q.head.chunked == p.head.chunked)
            && ((forall i :: 0 <= i < |ls| ==> !Named(ls[i], "content-length")) ==>
                  q.head.haveLength == p.head.haveLength && q.remaining == p.remaining)
  {
    hide HeaderLine, Named;
    if ls != [] {
      var n := |ls| - 1;
      LinesKeep(p, ls[..n]);
      LineKeeps(HeaderLines(p, ls[..n]), ls[n]);
    }
  }

  lemma {:induction false} LinesSplit(p: Parser, a: seq<seq<Byte>>, b: seq<seq<Byte>>)
    ensures HeaderLines(p, a + b) == HeaderLines(HeaderLines(p, a), b)
  {
    hide HeaderLine;
    if b == [] {
      assert a + b == a;
    } else {
      var n := |b| - 1;
      LinesSplit(p, a, b[..n]);
      assert (a + b)[..|a + b| - 1] == a + b[..n];
    }
  }

  lemma {:induction false} LineAt(p: Parser, ls: seq<seq<Byte>>, k: nat)
    requires k < |ls| && |ls[k]| < LINE_MAX
    ensures HeaderLines(p, ls) == HeaderLines(HeaderLine(HeaderLines(p, ls[..k]), ls[k]), ls[k + 1..])
  {
    hide HeaderLine;
    var front := ls[..k + 1];
    assert ls == front + ls[k + 1..] && front[..k] == ls[..k];
    LinesSplit(p, front, ls[k + 1..]);
  }

  /** The status line of a response with this code. */
  predicate StatusIs(l: seq<Byte>, code: nat) {
    && 12 <= |l| < LINE_MAX && LF !in l
    && l[..7] == ['H' as int, 'T' as int, 'T' as int, 'P' as int, '/' as int, '1' as int, '.' as int] && l[8] == ' ' as int
    && AllDigits(l[9..12]) && Val(l[9..12]) == code
  }

  lemma {:induction false} StatusRead(l: seq<Byte>, code: nat)
    requires StatusIs(l, code)
    ensures var q := StatusLine(Start(), l);
            !q.err && q.head.status == code && !q.head.chunked && !q.head.haveLength && q.remaining == 0 && LineText(l)
  {
    var d := l[9..12];
    assert d[0] == l[9] && d[1] == l[10] && d[2] == l[11];
    assert d[..2][..1] == [d[0]] && d[..2][1] == d[1] && [d[0]][..0] == [];
    assert Val([d[0]]) == DigitOf(d[0]);
    assert Val(d[..2]) == 10 * DigitOf(d[0]) + DigitOf(d[1]);
  }

  /** Codes whose responses have a body when one is announced. */
  predicate Bodied(code: nat) {
    !(100 <= code < 200) && code != 204 && code != 304
  }

  function Framed(status: seq<Byte>, headers: seq<seq<Byte>>): Parser {
    HeadersDone(HeaderLines(StatusLine(Start(), status), headers))
  }

  /** A head with the line Transfer-Encoding: chunked anywhere in it, whatever the other lines say,
      announces a chunked body. */
  lemma {:induction false} ChunkedHead(status: seq<Byte>, code: nat, headers: seq<seq<Byte>>, k: nat, f: Field)
    requires StatusIs(status, code) && Bodied(code)
    requires k < |headers| && headers[k] == FieldText(f) && |headers[k]| < LINE_MAX
    requires FieldOk(f) && Ieq(f.name, "transfer-encoding") && Ieq(f.value, "chunked")
    ensures Framed(status, headers).st.ChunkSize?
  {
    hide HeaderLine, HeaderLines, StatusLine, FieldOk, FieldText, Ieq, StatusIs, Named;
    var p := StatusLine(Start(), status);
    StatusRead(status, code);
    LineAt(p, headers, k);
    var a := HeaderLines(p, headers[..k]);
    LinesKeep(p, headers[..k]);
    ChunkedLine(a, f);
    LinesKeep(HeaderLine(a, headers[k]), headers[k + 1..]);
  }

  /** A head with the line Content-Length: n, no later line of that name and none named
      Transfer-Encoding, announces n bytes; none at all end the response at once. */
  lemma {:induction false} LengthHead(status: seq<Byte>, code: nat, headers: seq<seq<Byte>>, k: nat, f: Field)
    requires StatusIs(status, code) && Bodied(code)
    requires k < |headers| && headers[k] == FieldText(f) && |headers[k]| < LINE_MAX
    requires FieldOk(f) && Ieq(f.name, "content-length") && AllDigits(f.value) && Val(f.value) < U32_LIMIT
    requires forall i :: k < i < |headers| ==> !Named(headers[i], "content-length")
    requires forall i :: 0 <= i < |headers| ==> !Named(headers[i], "transfer-encoding")
    ensures var p := Framed(status, headers);
            p.head.haveLength && p.remaining == Val(f.value) && p.st == if Val(f.value) > 0 then Body else Done
  {
    hide HeaderLine, HeaderLines, StatusLine, FieldOk, FieldText, Ieq, StatusIs, Named, AllDigits, Val;
    var p := StatusLine(Start(), status);
    StatusRead(status, code);
    LineAt(p, headers, k);
    var a := HeaderLines(p, headers[..k]);
    LengthLine(a, f);
    LinesKeep(HeaderLine(a, headers[k]), headers[k + 1..]);
    LinesKeep(p, headers);
  }

  /** An interim response is skipped: after its last byte the parser is as at the start. */
  lemma {:induction false} InterimSkipped(status: seq<Byte>, code: nat, headers: seq<seq<Byte>>)
    requires StatusIs(status, code) && 100 <= code < 200
    requires forall i :: 0 <= i < |headers| ==> LineText(headers[i])
    ensures Run(Start(), HeadText(status, headers)) == Start()
  {
    hide HeaderLine, HeaderLines, StatusLine, StatusIs, LineText;
    StatusRead(status, code);
    StatusShort(status, code);
    HeadFed(Start(), status, headers);
    LinesKeep(StatusLine(Start(), status), headers);
    StatusQuiet(status);
  }

  lemma StatusShort(l: seq<Byte>, code: nat)
    requires StatusIs(l, code)
    ensures |l| < LINE_MAX
  {
  }

  lemma StatusQuiet(l: seq<Byte>)
    ensures StatusLine(Start(), l).out == []
  {
  }

  /** Any number of interim responses. */
  function Interims(heads: seq<(seq<Byte>, seq<seq<Byte>>)>): seq<Byte> {
    if heads == [] then []
    else Interims(heads[..|heads| - 1]) + HeadText(heads[|heads| - 1].0, heads[|heads| - 1].1)
  }

  ghost predicate InterimOk(h: (seq<Byte>, seq<seq<Byte>>)) {
    && |h.0| >= 12 && StatusIs(h.0, Val(h.0[9..12])) && 100 <= Val(h.0[9..12]) < 200
    && forall i :: 0 <= i < |h.1| ==> LineText(h.1[i])
  }

  lemma {:induction false} InterimsSkipped(heads: seq<(seq<Byte>, seq<seq<Byte>>)>)
    requires forall i :: 0 <= i < |heads| ==> InterimOk(heads[i])
    ensures Run(Start(), Interims(heads)) == Start()
  {
    hide Run, HeadText, InterimOk;
    if heads == [] {
      RunNothing(Start(), Interims(heads));
    } else {
      var n := |heads| - 1;
      InterimsSkipped(heads[..n]);
      RunJoin(Start(), Interims(heads[..n]), HeadText(heads[n].0, heads[n].1));
      OneInterim(heads[n]);
    }
  }

  lemma {:induction false} OneInterim(h: (seq<Byte>, seq<seq<Byte>>))
    requires InterimOk(h)
    ensures Run(Start(), HeadText(h.0, h.1)) == Start()
  {
    InterimSkipped(h.0, Val(h.0[9..12]), h.1);
  }

  // ---- redirects -----------------------------------------------------------------------------

  /** A Location line short enough to be followed. */
  predicate Located(l: seq<Byte>) {
    |l| < LINE_MAX && Named(l, "location") && |TrimRight(TrimLeft(l[IndexOf(l, ':' as int) + 1..]))| < MAX_URL
  }

  lemma {:induction false} LineLocates(p: Parser, l: seq<Byte>)
    requires |l| < LINE_MAX
    ensures HeaderLine(p, l).head.haveLocation <==> p.head.haveLocation || Located(l)
  {
    hide TrimLeft, TrimRight, HasToken, ParseU32, IndexOf, Blank;
    var k := IndexOf(l, ':' as int);
    if k < |l| { OtherNames(l[..k]); }
    hide Ieq;
  }

  lemma OtherNames(a: seq<Byte>)
    ensures Ieq(a, "location") ==> !Ieq(a, "content-length") && !Ieq(a, "transfer-encoding") && !Ieq(a, "connection")
  {
  }

  lemma {:induction false} LinesLocate(p: Parser, ls: seq<seq<Byte>>)
    ensures HeaderLines(p, ls).head.haveLocation <==> p.head.haveLocation || exists i :: 0 <= i < |ls| && Located(ls[i])
  {
    hide HeaderLine, Named, TrimLeft, TrimRight;
    if ls != [] {
      var n := |ls| - 1;
      LinesLocate(p, ls[..n]);
      if |ls[n]| < LINE_MAX { LineLocates(HeaderLines(p, ls[..n]), ls[n]); }
      assert (exists i :: 0 <= i < |ls| && Located(ls[i])) <==> Located(ls[n]) || exists i :: 0 <= i < n && Located(ls[..n][i]);
    }
  }

  /** The response is a redirect that is followed: its body is nobody's. */
  predicate Redirected(code: nat, headers: seq<seq<Byte>>) {
    code in {301, 302, 303, 307, 308} && exists i :: 0 <= i < |headers| && Located(headers[i])
  }

  lemma {:induction false} RedirectFollowed(status: seq<Byte>, code: nat, headers: seq<seq<Byte>>)
    requires StatusIs(status, code) && Bodied(code)
    ensures Framed(status, headers).head.redirecting <==> Redirected(code, headers)
  {
    hide HeaderLine, HeaderLines, StatusLine, StatusIs, Located;
    StatusRead(status, code);
    NoLocationYet(status);
    LinesKeep(StatusLine(Start(), status), headers);
    LinesLocate(StatusLine(Start(), status), headers);
  }

  lemma NoLocationYet(status: seq<Byte>)
    ensures !StatusLine(Start(), status).head.haveLocation
  {
  }

  // ---- names and tokens ----------------------------------------------------------------------

  /** A name matches when each letter is the same, capital or not. */
  lemma {:induction false} IeqIs(a: seq<Byte>, lit: string)
    requires forall i :: 0 <= i < |lit| ==> lit[i] < 128 as char && !('A' <= lit[i] <= 'Z')
    ensures Ieq(a, lit) <==>
            |a| == |lit| && forall i :: 0 <= i < |a| ==> a[i] == lit[i] as int || ('a' <= lit[i] <= 'z' && a[i] == lit[i] as int - 32)
  {
    forall i | 0 <= i < |a| && |a| == |lit|
      ensures Lower(a[i]) == lit[i] as int <==> a[i] == lit[i] as int || ('a' <= lit[i] <= 'z' && a[i] == lit[i] as int - 32)
    {
    }
  }

  /** v[i..j] is one of the pieces between commas and blanks. */
  predicate TokenAt(v: seq<Byte>, i: nat, j: nat) {
    && i < j <= |v| && (i == 0 || Separates(v[i - 1])) && (j == |v| || Separates(v[j]))
    && forall k :: i <= k < j ==> !Separates(v[k])
  }

  lemma {:induction false} TokenEnds(v: seq<Byte>)
    ensures forall k :: 0 <= k < TokenEnd(v) ==> !Separates(v[k])
    ensures TokenEnd(v) < |v| ==> Separates(v[TokenEnd(v)])
  {
    if v != [] && !Separates(v[0]) { TokenEnds(v[1..]); }
  }

  /** tok, in any case, is one of the pieces of v. */
  ghost predicate HasPiece(v: seq<Byte>, tok: string) {
    exists i: nat, j: nat :: TokenAt(v, i, j) && Ieq(v[i..j], tok)
  }

  /** has_token finds exactly the pieces between commas and blanks. */
  lemma {:induction false} HasTokenIff(v: seq<Byte>, tok: string)
    requires tok != ""
    ensures HasToken(v, tok) <==> HasPiece(v, tok)
    decreases |v|
  {
    hide Ieq, Separates, HasPiece;
    if v == [] {
      NoPiece(v, tok);
    } else if Separates(v[0]) {
      HasTokenIff(v[1..], tok);
      PieceShift(v, 1, tok);
    } else {
      var n := TokenEnd(v);
      TokenEnds(v);
      HasTokenIff(v[n..], tok);
      PieceShift(v, n, tok);
    }
  }

  lemma NoPiece(v: seq<Byte>, tok: string)
    requires v == []
    ensures !HasPiece(v, tok)
  {
  }

  /** The pieces are the one at the front, if the text begins with one, and those of the rest. */
  lemma {:induction false} PieceShift(v: seq<Byte>, n: nat, tok: string)
    requires 0 < n <= |v| && tok != ""
    requires if Separates(v[0]) then n == 1 else TokenAt(v, 0, n)
    ensures HasPiece(v, tok) <==> (!Separates(v[0]) && Ieq(v[..n], tok)) || HasPiece(v[n..], tok)
  {
    hide Ieq, Separates;
    if HasPiece(v, tok) {
      var i: nat, j: nat :| TokenAt(v, i, j) && Ieq(v[i..j], tok);
      if i < n {
        FrontIsOpen(v, n, i, j);
        FirstToken(v, n, i, j);
        assert v[0..n] == v[..n];
      } else {
        ShiftOne(v, n, i, j);
        assert TokenAt(v[n..], i - n, j - n);
      }
    }
    if HasPiece(v[n..], tok) {
      var i: nat, j: nat :| TokenAt(v[n..], i, j) && Ieq(v[n..][i..j], tok);
      ShiftOne(v, n, i + n, j + n);
      assert TokenAt(v, i + n, j + n);
    }
    if !Separates(v[0]) && Ieq(v[..n], tok) {
      assert TokenAt(v, 0, n) && v[0..n] == v[..n];
    }
  }

  lemma FrontIsOpen(v: seq<Byte>, n: nat, i: nat, j: nat)
    requires TokenAt(v, i, j) && i < n <= |v| && (Separates(v[0]) ==> n == 1)
    ensures !Separates(v[0])
  {
    hide Separates;
  }

  lemma FirstToken(v: seq<Byte>, n: nat, i: nat, j: nat)
    requires TokenAt(v, 0, n) && TokenAt(v, i, j) && i < n
    ensures i == 0 && j == n
  {
    hide Separates;
  }

  lemma ShiftOne(v: seq<Byte>, n: nat, i: nat, j: nat)
    requires 0 < n <= |v| && n <= i && n <= j && (n < |v| ==> Separates(v[n]) || Separates(v[n - 1]))
    ensures TokenAt(v, i, j) <==> TokenAt(v[n..], i - n, j - n)
    ensures i <= j <= |v| ==> v[i..j] == v[n..][i - n..j - n]
  {
    hide Separates;
    if TokenAt(v[n..], i - n, j - n) {
      forall k | i <= k < j ensures !Separates(v[k]) { assert v[k] == v[n..][k - n]; }
    }
    if TokenAt(v, i, j) {
      forall k | i - n <= k < j - n ensures !Separates(v[n..][k]) { assert v[k + n] == v[n..][k]; }
    }
  }

  // ---- whole messages, from their text -------------------------------------------------------

  /** Interim responses, then a response whose head says Transfer-Encoding: chunked, then any chunking
      of a body: an accepting sink gets exactly the body, or nothing while a redirect is followed, and
      the parser stops on the last byte. */
  lemma {:induction false} ChunkedMessage(interim: seq<(seq<Byte>, seq<seq<Byte>>)>, status: seq<Byte>, code: nat,
                                          headers: seq<seq<Byte>>, k: nat, f: Field,
                                          cs: seq<Chunk>, size: seq<Byte>, ext: seq<Byte>, trailers: seq<seq<Byte>>)
    requires forall i :: 0 <= i < |interim| ==> InterimOk(interim[i])
    requires StatusIs(status, code) && Bodied(code) && forall i :: 0 <= i < |headers| ==> LineText(headers[i])
    requires k < |headers| && headers[k] == FieldText(f) && |headers[k]| < LINE_MAX
    requires FieldOk(f) && Ieq(f.name, "transfer-encoding") && Ieq(f.value, "chunked")
    requires forall i :: 0 <= i < |cs| ==> ChunkOk(cs[i])
    requires SizeText(size, ext, 0) && forall i :: 0 <= i < |trailers| ==> LineText(trailers[i])
    ensures var m := Interims(interim) + (HeadText(status, headers) + ChunkedBody(cs, size, ext, trailers));
            var r := Run(Start(), m);
            && r.st.Done? && !r.err && r.out == (if Redirected(code, headers) then [] else Content(cs))
            && |m| > 0 && !Stopped(Run(Start(), m[..|m| - 1]))
  {
    hide Run, SizeText, ChunkOk, HeaderLines, StatusLine, ChunkedBody, HeadText, InterimOk, StatusIs, FieldOk, FieldText, Ieq,
         LineText, Content;
    StatusRead(status, code);
    StatusShort(status, code);
    ChunkedHead(status, code, headers, k, f);
    RedirectFollowed(status, code, headers);
    ChunkedResponse(status, headers, cs, size, ext, trailers);
    AfterInterims(interim, HeadText(status, headers) + ChunkedBody(cs, size, ext, trailers));
  }

  lemma {:induction false} AfterInterims(interim: seq<(seq<Byte>, seq<seq<Byte>>)>, m: seq<Byte>)
    requires (forall i :: 0 <= i < |interim| ==> InterimOk(interim[i])) && m != []
    ensures Run(Start(), Interims(interim) + m) == Run(Start(), m)
    ensures var t := Interims(interim) + m; Run(Start(), t[..|t| - 1]) == Run(Start(), m[..|m| - 1])
  {
    hide Run, InterimOk, Interims;
    InterimsSkipped(interim);
    RunJoin(Start(), Interims(interim), m);
    RunJoin(Start(), Interims(interim), m[..|m| - 1]);
    var t := Interims(interim) + m;
    assert t[..|t| - 1] == Interims(interim) + m[..|m| - 1];
  }

  /** The same with Content-Length: n and n bytes of body, none included. */
  lemma {:induction false} LengthMessage(interim: seq<(seq<Byte>, seq<seq<Byte>>)>, status: seq<Byte>, code: nat,
                                         headers: seq<seq<Byte>>, k: nat, f: Field, body: seq<Byte>)
    requires forall i :: 0 <= i < |interim| ==> InterimOk(interim[i])
    requires StatusIs(status, code) && Bodied(code) && forall i :: 0 <= i < |headers| ==> LineText(headers[i])
    requires k < |headers| && headers[k] == FieldText(f) && |headers[k]| < LINE_MAX
    requires FieldOk(f) && Ieq(f.name, "content-length") && AllDigits(f.value) && Val(f.value) == |body| < U32_LIMIT
    requires forall i :: k < i < |headers| ==> !Named(headers[i], "content-length")
    requires forall i :: 0 <= i < |headers| ==> !Named(headers[i], "transfer-encoding")
    ensures var m := Interims(interim) + (HeadText(status, headers) + body);
            var r := Run(Start(), m);
            && r.st.Done? && !r.err && r.out == (if Redirected(code, headers) then [] else body)
            && |m| > 0 && !Stopped(Run(Start(), m[..|m| - 1]))
  {
    hide Run, HeaderLines, StatusLine, HeadText, InterimOk, StatusIs, FieldOk, FieldText, Ieq, LineText, Named, AllDigits, Val;
    StatusRead(status, code);
    StatusShort(status, code);
    LengthHead(status, code, headers, k, f);
    RedirectFollowed(status, code, headers);
    HeadFed(Start(), status, headers);
    if body == [] {
      EmptyBody(status, headers, body);
    } else {
      LengthResponse(status, headers, body);
    }
    AfterInterims(interim, HeadText(status, headers) + body);
  }

  lemma {:induction false} EmptyBody(status: seq<Byte>, headers: seq<seq<Byte>>, body: seq<Byte>)
    requires LineText(status) && |status| < LINE_MAX && !StatusLine(Start(), status).err
    requires (forall i :: 0 <= i < |headers| ==> LineText(headers[i])) && Framed(status, headers).st.Done? && body == []
    ensures var m := HeadText(status, headers) + body;
            var r := Run(Start(), m);
            r.st.Done? && !r.err && r.out == [] && |m| > 0 && !Stopped(Run(Start(), m[..|m| - 1]))
  {
    hide Run, HeaderLines, StatusLine, HeadText, LineText;
    HeadFed(Start(), status, headers);
    HeadOut(status, headers);
    assert HeadText(status, headers) + body == HeadText(status, headers);
  }
}
