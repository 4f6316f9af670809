/** What the response parser refuses, when a response has no body, and when the connection may be kept. */
module HttpRules {
  import opened Prelude
  import opened Http
  import opened HttpHead

  // ---- lines that are refused ----------------------------------------------------------------

  /** The line begins with a number in hex of at most 32 bits. */
  ghost predicate SizeShown(l: seq<Byte>) {
    exists n: nat :: SizeAt(l, n)
  }

  ghost predicate SizeAt(l: seq<Byte>, n: nat) {
    && 0 < n <= |l| && AllHex(l[..n]) && (n < |l| ==> HexValue(l[n]) == None)
    && HexNumber(l[..n]) < 0x1_0000_0000
  }

  lemma {:induction false} HexDigitsAre(l: seq<Byte>)
    ensures AllHex(l[..HexDigits(l)]) && (HexDigits(l) < |l| ==> HexValue(l[HexDigits(l)]) == None)
  {
    if l != [] && HexValue(l[0]).Some? {
      HexDigitsAre(l[1..]);
      assert l[..HexDigits(l)] == [l[0]] + l[1..][..HexDigits(l) - 1];
    }
  }

  lemma {:induction false} SizeLineIs(l: seq<Byte>)
    ensures (HexDigits(l) > 0 && HexOf(l, 0).Some?) <==> SizeShown(l)
  {
    HexDigitsAre(l);
    var n := HexDigits(l);
    HexOfIs(l[..n]);
    SizeRead(l[..n], l[n..], 0);
    assert l == l[..n] + l[n..];
    hide HexOf, HexDigits, HexValue, HexNumber;
    if SizeShown(l) {
      var m: nat :| SizeAt(l, m);
      SameEnd(l, m, n);
    } else {
      assert !SizeAt(l, n);
    }
  }

  lemma SameEnd(l: seq<Byte>, m: nat, n: nat)
    requires m <= |l| && n <= |l| && AllHex(l[..m]) && AllHex(l[..n])
    requires (m < |l| ==> HexValue(l[m]) == None) && (n < |l| ==> HexValue(l[n]) == None)
    ensures m == n
  {
    if m < n { HexIn(l, n, m); }
    if n < m { HexIn(l, m, n); }
  }

  lemma HexIn(l: seq<Byte>, n: nat, i: nat)
    requires i < n <= |l| && AllHex(l[..n])
    ensures HexValue(l[i]).Some?
  {
    assert l[..n][i] == l[i];
  }

  /** A chunk's size line is refused exactly when it is too long or does not begin with a size; an empty
      line is passed over. */
  lemma {:induction false} SizeRefused(p: Parser, l: seq<Byte>)
    requires Ok(p) && Fresh(p) && p.st.ChunkSize? && LF !in l
    ensures var r := Run(p, l + CRLF);
            (r.err <==> |l| >= LINE_MAX || (l != [] && !SizeShown(l))) && (l == [] ==> r == p)
  {
    hide Run, HexOf, HexDigits, SizeShown;
    LineFed(p, l);
    Stripped(l);
    SizeLineIs(l);
  }

  /** A status line is refused exactly when it is none; an empty line is passed over. */
  lemma {:induction false} StatusRefused(l: seq<Byte>)
    requires LF !in l
    ensures var r := Run(Start(), l + CRLF);
            (r.err <==> l != [] && !exists code: nat :: StatusIs(l, code)) && (r.head.gotStatus <==> l != [] && !r.err)
  {
    hide Run, StatusIs, StatusLine, StripCr;
    LineFed(Start(), l);
    Stripped(l);
    if |l| >= LINE_MAX {
      forall code: nat ensures !StatusIs(l, code) { TooLong(l, code); }
    } else {
      StatusLineIs(l);
    }
  }

  lemma TooLong(l: seq<Byte>, code: nat)
    requires |l| >= LINE_MAX
    ensures !StatusIs(l, code)
  {
  }

  lemma StatusLineIs(l: seq<Byte>)
    requires |l| < LINE_MAX && LF !in l
    ensures StatusLine(Start(), l).err <==> l != [] && !exists code: nat :: StatusIs(l, code)
    ensures StatusLine(Start(), l).head.gotStatus <==> l != [] && !StatusLine(Start(), l).err
    ensures StatusLine(Start().(line := [], over := false), l) == StatusLine(Start(), l)
  {
    if 12 <= |l| {
      Digits(l);
      hide Val, AllDigits;
      assert StatusIs(l, Val(l[9..12])) || forall code: nat :: !StatusIs(l, code);
    }
  }

  lemma Digits(l: seq<Byte>)
    requires 12 <= |l|
    ensures AllDigits(l[9..12]) <==> IsDigit(l[9]) && IsDigit(l[10]) && IsDigit(l[11])
    ensures StatusIs(l, Val(l[9..12])) || forall code: nat :: !StatusIs(l, code)
  {
    hide Val;
    assert l[9..12] == [l[9], l[10], l[11]];
  }

  /** Behind a chunk's data come carriage returns and the line feed, and nothing else. */
  lemma {:induction false} TerminatorRefused(p: Parser, pre: seq<Byte>, b: Byte)
    requires Ok(p) && p.st.ChunkCrlf? && !p.err && forall i :: 0 <= i < |pre| ==> pre[i] == CR
    ensures var r := Run(p, pre + [b]); (r.err <==> b != CR && b != LF) && (r.st.ChunkSize? <==> b == LF)
  {
    hide Run;
    if pre == [] {
      assert pre + [b] == [b];
    } else {
      assert pre + [b] == [pre[0]] + (pre[1..] + [b]);
      RunJoin(p, [pre[0]], pre[1..] + [b]);
      RunOne(p, pre[0]);
      TerminatorRefused(p, pre[1..], b);
    }
    RunOne(p, b);
  }

  // ---- responses without a body --------------------------------------------------------------

  /** A 204 or 304 response ends with its head, whatever its fields announce. */
  lemma {:induction false} BodilessMessage(status: seq<Byte>, code: nat, headers: seq<seq<Byte>>)
    requires StatusIs(status, code) && code in {204, 304} && forall i :: 0 <= i < |headers| ==> LineText(headers[i])
    ensures var m := HeadText(status, headers);
            var r := Run(Start(), m);
            r.st.Done? && !r.err && r.out == [] && |m| > 0 && !Stopped(Run(Start(), m[..|m| - 1]))
  {
    hide Run, HeaderLines, HeaderLine, StatusLine, LineText, HeadText, StatusIs;
    StatusRead(status, code);
    StatusShort(status, code);
    HeadFed(Start(), status, headers);
    HeadOut(status, headers);
    LinesKeep(StatusLine(Start(), status), headers);
  }

  // ---- whether the connection is kept --------------------------------------------------------

  function FieldValue(l: seq<Byte>): seq<Byte> {
    var k := IndexOf(l, ':' as int);
    if k < |l| then TrimRight(TrimLeft(l[k + 1..])) else []
  }

  /** What a header line says about closing the connection. */
  ghost function Says(l: seq<Byte>): (close: Option<bool>) {
    if |l| >= LINE_MAX || !Named(l, "connection") then None
    else if HasPiece(FieldValue(l), "close") then Some(true)
    else if HasPiece(FieldValue(l), "keep-alive") then Some(false)
    else None
  }

  /** The last line that says anything decides; without one, HTTP/1.0 closes. */
  ghost predicate Closes(status: seq<Byte>, headers: seq<seq<Byte>>)
    requires |status| >= 12
  {
    if exists i: nat :: Decides(headers, i) then exists i: nat :: Decides(headers, i) && Says(headers[i]) == Some(true)
    else status[7] == '0' as int
  }

  ghost predicate Decides(headers: seq<seq<Byte>>, i: nat) {
    i < |headers| && Says(headers[i]).Some? && forall j :: i < j < |headers| ==> Says(headers[j]) == None
  }

  lemma {:induction false} LineSays(p: Parser, l: seq<Byte>)
    requires |l| < LINE_MAX
    ensures HeaderLine(p, l).head.closeAfter == match Says(l) case Some(c) => c case None => p.head.closeAfter
  {
    hide TrimLeft, TrimRight, ParseU32, IndexOf, Blank, HasPiece;
    var k := IndexOf(l, ':' as int);
    if k < |l| {
      OtherNamesTwo(l[..k]);
      HasTokenIff(FieldValue(l), "close");
      HasTokenIff(FieldValue(l), "keep-alive");
    }
    hide Ieq, HasToken;
  }

  lemma OtherNamesTwo(a: seq<Byte>)
    ensures Ieq(a, "connection") ==> !Ieq(a, "content-length") && !Ieq(a, "transfer-encoding") && !Ieq(a, "location")
  {
  }

  lemma {:induction false} LinesSay(status: seq<Byte>, code: nat, headers: seq<seq<Byte>>)
    requires StatusIs(status, code)
    ensures HeaderLines(StatusLine(Start(), status), headers).head.closeAfter <==> Closes(status, headers)
  {
    hide HeaderLine, Says;
    if headers == [] {
      assert !exists i: nat :: Decides(headers, i);
    } else {
      hide StatusLine, StatusIs;
      var n := |headers| - 1;
      LinesSay(status, code, headers[..n]);
      ClosesStep(status, headers);
      if |headers[n]| < LINE_MAX { LineSays(HeaderLines(StatusLine(Start(), status), headers[..n]), headers[n]); }
      else { LongIsSilent(headers[n]); }
    }
  }

  lemma LongIsSilent(l: seq<Byte>)
    requires |l| >= LINE_MAX
    ensures Says(l) == None
  {
  }

  lemma {:induction false} ClosesStep(status: seq<Byte>, headers: seq<seq<Byte>>)
    requires |status| >= 12 && headers != []
    ensures var n := |headers| - 1;
            Closes(status, headers) == match Says(headers[n]) case Some(c) => c case None => Closes(status, headers[..n])
  {
    hide Says;
    var n := |headers| - 1;
    if Says(headers[n]).Some? {
      assert Decides(headers, n);
    } else {
      forall i: nat ensures Decides(headers, i) <==> Decides(headers[..n], i) { SilentEnd(headers, i); }
    }
  }

  lemma SilentEnd(headers: seq<seq<Byte>>, i: nat)
    requires headers != [] && Says(headers[|headers| - 1]) == None
    ensures Decides(headers, i) <==> Decides(headers[..|headers| - 1], i)
  {
    hide Says;
    var n := |headers| - 1;
    assert forall j :: 0 <= j < n ==> headers[..n][j] == headers[j];
  }

  /** The connection is closed behind a response exactly when its fields or version say so, or when only
      the connection's end can end its body. */
  lemma {:induction false} ClosesIff(status: seq<Byte>, code: nat, headers: seq<seq<Byte>>)
    requires StatusIs(status, code) && !(100 <= code < 200)
    ensures var p := Framed(status, headers);
            p.head.closeAfter <==> (p.st.Body? && !p.head.haveLength) || Closes(status, headers)
  {
    hide HeaderLine, HeaderLines, Closes, StatusIs;
    LinesSay(status, code, headers);
    StatusRead(status, code);
    LinesKeep(StatusLine(Start(), status), headers);
    StatusQuiet(status);
    NotYet(status, code);
    LinesStay(StatusLine(Start(), status), headers);
    hide StatusLine;
  }

  lemma NotYet(status: seq<Byte>, code: nat)
    requires StatusIs(status, code)
    ensures StatusLine(Start(), status).st.Headers?
  {
    StatusRead(status, code);
  }

  lemma {:induction false} LinesStay(p: Parser, headers: seq<seq<Byte>>)
    ensures HeaderLines(p, headers).st == p.st
  {
    hide HeaderLine;
    if headers != [] {
      LinesStay(p, headers[..|headers| - 1]);
    }
  }
}
