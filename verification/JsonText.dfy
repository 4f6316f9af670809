/** What the tokenizer's strings mean: escapes, surrogate pairs and UTF-8. */
module JsonText {
  import opened Prelude
  import opened Json

  function LowBits(b: Byte, m: nat): (r: nat)
    requires m > 0
  {
    b % m as nat
  }

  /** The code point of one UTF-8 sequence. */
  function FromUtf8(b: seq<Byte>): nat
    requires 1 <= |b| <= 4
  {
    if |b| == 1 then b[0]
    else if |b| == 2 then LowBits(b[0], 0x20) * 0x40 + LowBits(b[1], 0x40)
    else if |b| == 3 then LowBits(b[0], 0x10) * 0x1000 + LowBits(b[1], 0x40) * 0x40 + LowBits(b[2], 0x40)
    else LowBits(b[0], 8) * 0x4_0000 + LowBits(b[1], 0x40) * 0x1000 + LowBits(b[2], 0x40) * 0x40 + LowBits(b[3], 0x40)
  }

  /** A sequence as UTF-8 allows it: the right lead byte, continuation bytes, no longer than need be. */
  predicate ShortestUtf8(b: seq<Byte>)
    requires 1 <= |b| <= 4
  {
    && (forall i :: 1 <= i < |b| ==> 0x80 <= b[i] < 0xC0)
    && (if |b| == 1 then b[0] < 0x80
        else if |b| == 2 then 0xC0 <= b[0] < 0xE0 && FromUtf8(b) >= 0x80
        else if |b| == 3 then 0xE0 <= b[0] < 0xF0 && FromUtf8(b) >= 0x800
        else 0xF0 <= b[0] < 0xF8 && FromUtf8(b) >= 0x1_0000)
  }

  lemma {:induction false} Utf8Back(cp: nat)
    requires cp < 0x20_0000
    ensures FromUtf8(Utf8(cp)) == cp && ShortestUtf8(Utf8(cp))
  {
    if cp < 0x80 {
    } else if cp < 0x800 {
      TwoBytes(cp);
    } else if cp < 0x1_0000 {
      ThreeBytes(cp);
    } else {
      FourBytes(cp);
    }
  }

  lemma {:induction false} TwoBytes(cp: nat)
    requires 0x80 <= cp < 0x800
    ensures FromUtf8(Utf8(cp)) == cp && ShortestUtf8(Utf8(cp))
  {
    var a, b := cp / 0x40, cp % 0x40;
    assert cp == a * 0x40 + b && a < 0x20;
    assert (0xC0 + a) % 0x20 == a && (0x80 + b) % 0x40 == b;
  }

  lemma {:induction false} ThreeBytes(cp: nat)
    requires 0x800 <= cp < 0x1_0000
    ensures FromUtf8(Utf8(cp)) == cp && ShortestUtf8(Utf8(cp))
  {
    var a, b, c := cp / 0x1000, cp / 0x40 % 0x40, cp % 0x40;
    ThreeGroups(cp);
    assert (0xE0 + a) % 0x10 == a && (0x80 + b) % 0x40 == b && (0x80 + c) % 0x40 == c;
  }

  lemma {:induction false} ThreeGroups(cp: nat)
    requires cp < 0x1_0000
    ensures cp == cp / 0x1000 * 0x1000 + cp / 0x40 % 0x40 * 0x40 + cp % 0x40 && cp / 0x1000 < 0x10
  {
    var q := cp / 0x40;
    assert cp == q * 0x40 + cp % 0x40;
    assert q == q / 0x40 * 0x40 + q % 0x40;
    assert q / 0x40 == cp / 0x1000;
  }

  lemma {:induction false} FourBytes(cp: nat)
    requires 0x1_0000 <= cp < 0x20_0000
    ensures FromUtf8(Utf8(cp)) == cp && ShortestUtf8(Utf8(cp))
  {
    var a, b, c, d := cp / 0x4_0000, cp / 0x1000 % 0x40, cp / 0x40 % 0x40, cp % 0x40;
    FourGroups(cp);
    SixBits(b);
    SixBits(c);
    SixBits(d);
    assert (0xF0 + a) % 8 == a;
  }

  lemma SixBits(x: nat)
    requires x < 0x40
    ensures (0x80 + x) % 0x40 == x
  {
  }

  lemma {:induction false} FourGroups(cp: nat)
    requires cp < 0x20_0000
    ensures cp == cp / 0x4_0000 * 0x4_0000 + cp / 0x1000 % 0x40 * 0x1000 + cp / 0x40 % 0x40 * 0x40 + cp % 0x40
    ensures cp / 0x4_0000 < 8
  {
    assert cp == cp / 0x40 * 0x40 + cp % 0x40;
    ThreeGroups(cp / 0x40);
    assert cp / 0x40 / 0x1000 == cp / 0x4_0000 && cp / 0x40 / 0x40 % 0x40 == cp / 0x1000 % 0x40;
  }

  /** Surrogate pairs and the code points past 0xFFFF are in one-to-one correspondence. */
  lemma {:induction false} PairCovers(cp: nat) returns (hi: nat, lo: nat)
    requires 0x1_0000 <= cp < 0x11_0000
    ensures High(hi) && Low(lo) && Pair(hi, lo) == cp
    ensures forall h, l :: High(h) && Low(l) && Pair(h, l) == cp ==> h == hi && l == lo
  {
    hi, lo := 0xD800 + (cp - 0x1_0000) / 0x400, 0xDC00 + (cp - 0x1_0000) % 0x400;
  }

  // ---- escapes through the tokenizer ---------------------------------------------------------

  predicate IsHex4(d: seq<Byte>) {
    |d| == 4 && forall i :: 0 <= i < 4 ==> HexValue(d[i]).Some? && HexValue(d[i]).value < 16
  }

  function Hex4(d: seq<Byte>): (v: nat)
    requires IsHex4(d)
    ensures v < 0x1_0000
  {
    HexValue(d[0]).value * 4096 + HexValue(d[1]).value * 256 + HexValue(d[2]).value * 16 + HexValue(d[3]).value
  }

  function UEscape(d: seq<Byte>): seq<Byte> {
    ['\\' as int, 'u' as int] + d
  }

  lemma {:induction false} RunStep(j: Js, s: seq<Byte>, c: Byte, rest: seq<Byte>)
    requires Ok(j) && s == [c] + rest
    ensures Run(j, s) == Run(Step(j, c), rest)
  {
    hide Step, Ok;
    assert s[1..] == rest;
  }

  lemma {:induction false} HexDigits(j: Js, d: seq<Byte>)
    requires Ok(j) && j.st.UHex? && j.sub == 0 && j.uescape == 0 && IsHex4(d)
    ensures Run(j, d) == EndUescape(j.(uescape := Hex4(d), sub := 4)).(st := String)
  {
    hide EndUescape, HexValue, Run;
    var a, b, c, e := HexValue(d[0]).value, HexValue(d[1]).value, HexValue(d[2]).value, HexValue(d[3]).value;
    RunStep(j, d, d[0], d[1..]);
    var j1 := j.(uescape := a, sub := 1);
    assert Step(j, d[0]) == j1;
    RunStep(j1, d[1..], d[1], d[2..]);
    var j2 := j.(uescape := a * 16 + b, sub := 2);
    assert Step(j1, d[1]) == j2;
    RunStep(j2, d[2..], d[2], d[3..]);
    var j3 := j.(uescape := (a * 16 + b) * 16 + c, sub := 3);
    assert Step(j2, d[2]) == j3;
    RunStep(j3, d[3..], d[3], []);
    LastDigit(j, j3, d, d[3]);
  }

  lemma {:induction false} LastDigit(j: Js, j3: Js, d: seq<Byte>, c: Byte)
    requires Ok(j) && j.st.UHex? && IsHex4(d) && c == d[3]
    requires j3 == j.(uescape := (HexValue(d[0]).value * 16 + HexValue(d[1]).value) * 16 + HexValue(d[2]).value, sub := 3)
    ensures Ok(j3) && Run(Step(j3, c), []) == EndUescape(j.(uescape := Hex4(d), sub := 4)).(st := String)
  {
    hide EndUescape, HexValue;
  }

  /** \uXXXX inside a string hands exactly its four digits' value on. */
  lemma {:induction false} OneEscape(j: Js, d: seq<Byte>)
    requires Ok(j) && j.st.String? && IsHex4(d)
    ensures Run(j, UEscape(d)) == EndUescape(j.(uescape := Hex4(d), sub := 4, st := UHex)).(st := String)
  {
    hide EndUescape, Run, Hex4, IsHex4;
    var s := UEscape(d);
    RunStep(j, s, '\\' as int, ['u' as int] + d);
    var j1 := j.(st := Escape);
    assert Step(j, '\\' as int) == j1;
    RunStep(j1, ['u' as int] + d, 'u' as int, d);
    var j2 := j.(st := UHex, sub := 0, uescape := 0);
    assert Step(j1, 'u' as int) == j2;
    HexDigits(j2, d);
    assert j2.(uescape := Hex4(d), sub := 4) == j.(uescape := Hex4(d), sub := 4, st := UHex);
  }

  /** Two escapes that make a surrogate pair send the one character they stand for, in UTF-8, and
      nothing else; by RunSplit this holds wherever the twelve bytes are cut. */
  lemma {:induction false} EscapedPair(j: Js, d: seq<Byte>, e: seq<Byte>)
    requires Ok(j) && j.st.String? && !j.inKey && j.pending == 0
    requires IsHex4(d) && IsHex4(e) && High(Hex4(d)) && Low(Hex4(e))
    ensures var r := Run(j, UEscape(d) + UEscape(e));
            var bytes := Utf8(Pair(Hex4(d), Hex4(e)));
            && r.st.String? && r.pending == 0 && !r.inKey && r.stack == j.stack && r.index == j.index && r.key == j.key
            && r.out == j.out + Cut(Event(StringEv, bytes, false, j.stack, j.index, j.key))
            && FromUtf8(bytes) == Pair(Hex4(d), Hex4(e))
  {
    hide Run, Hex4, IsHex4, Utf8, Cut, UEscape, FromUtf8;
    RunSplit(j, UEscape(d), UEscape(e));
    OneEscape(j, d);
    var h := j.(uescape := Hex4(d), sub := 4, pending := Hex4(d));
    assert Run(j, UEscape(d)) == h;
    OneEscape(h, e);
    Utf8Back(Pair(Hex4(d), Hex4(e)));
  }

  /** A low surrogate that no high one precedes becomes U+FFFD. */
  lemma {:induction false} LoneSurrogate(j: Js, d: seq<Byte>)
    requires Ok(j) && j.st.String? && !j.inKey && IsHex4(d) && Low(Hex4(d)) && j.pending == 0
    ensures Run(j, UEscape(d)).out == j.out + Cut(Event(StringEv, Utf8(0xFFFD), false, j.stack, j.index, j.key))
  {
    hide Run, Hex4, IsHex4, Utf8, Cut, UEscape;
    OneEscape(j, d);
  }

  /** The state after a high surrogate's escape has been given up: U+FFFD is sent, nothing waits. */
  function GivenUp(j: Js, d: seq<Byte>): (r: Js)
    requires Ok(j) && j.st.String? && IsHex4(d)
    ensures Ok(r)
  {
    j.(uescape := Hex4(d), sub := 4, out := j.out + Cut(Event(StringEv, Utf8(0xFFFD), false, j.stack, j.index, j.key)))
  }

  /** The high half waits; nothing is sent yet. */
  lemma {:induction false} HighWaits(j: Js, d: seq<Byte>)
    requires Ok(j) && j.st.String? && !j.inKey && j.pending == 0 && IsHex4(d) && High(Hex4(d))
    ensures Run(j, UEscape(d)) == j.(uescape := Hex4(d), sub := 4, pending := Hex4(d))
    ensures FlushPending(Run(j, UEscape(d))) == GivenUp(j, d)
  {
    hide Run, Hex4, IsHex4, Utf8, Cut, UEscape;
    OneEscape(j, d);
  }

  /** A high surrogate followed by anything but an escape, the closing quote included: U+FFFD, then what
      follows as if nothing had been waiting. */
  lemma {:induction false} HighThenByte(j: Js, d: seq<Byte>, c: Byte, rest: seq<Byte>)
    requires Ok(j) && j.st.String? && !j.inKey && j.pending == 0 && IsHex4(d) && High(Hex4(d)) && c != '\\' as int
    ensures Run(j, UEscape(d) + ([c] + rest)) == Run(GivenUp(j, d), [c] + rest)
  {
    hide Run, Hex4, IsHex4, UEscape, GivenUp, StringByte, FlushPending;
    HighWaits(j, d);
    RunSplit(j, UEscape(d), [c] + rest);
    RunStep(Run(j, UEscape(d)), [c] + rest, c, rest);
    RunStep(GivenUp(j, d), [c] + rest, c, rest);
    NothingWaits(j, d);
  }

  lemma NothingWaits(j: Js, d: seq<Byte>)
    requires Ok(j) && j.st.String? && j.pending == 0 && IsHex4(d)
    ensures GivenUp(j, d).st.String? && FlushPending(GivenUp(j, d)) == GivenUp(j, d)
  {
  }

  /** A high surrogate followed by a simple escape. */
  lemma {:induction false} HighThenSimple(j: Js, d: seq<Byte>, c: Byte, rest: seq<Byte>)
    requires Ok(j) && j.st.String? && !j.inKey && j.pending == 0 && IsHex4(d) && High(Hex4(d)) && Unescaped(c).Some?
    ensures Run(j, UEscape(d) + ['\\' as int, c] + rest) == Run(GivenUp(j, d), ['\\' as int, c] + rest)
  {
    hide Run, Hex4, IsHex4, UEscape, Utf8, Cut, Unescaped, EmitBytes;
    HighWaits(j, d);
    var s := ['\\' as int, c] + rest;
    assert UEscape(d) + ['\\' as int, c] + rest == UEscape(d) + s;
    RunSplit(j, UEscape(d), s);
    var h, g := Run(j, UEscape(d)), GivenUp(j, d);
    NotU(c);
    FlushLater(h);
    FlushLater(g);
    RunStep(h, s, '\\' as int, [c] + rest);
    RunStep(g, s, '\\' as int, [c] + rest);
    RunStep(h.(st := Escape), [c] + rest, c, rest);
    RunStep(g.(st := Escape), [c] + rest, c, rest);
  }

  lemma FlushLater(j: Js)
    requires Ok(j) && j.st.String? && !j.inKey
    ensures Ok(j.(st := Escape)) && FlushPending(j.(st := Escape)) == FlushPending(j).(st := Escape)
  {
  }

  lemma NotU(c: Byte)
    ensures Unescaped(c).Some? ==> c != 'u' as int
  {
  }

  /** A high surrogate followed by an escape that is no low one: another high one, which then waits
      itself, or any other character. */
  lemma {:induction false} HighThenEscape(j: Js, d: seq<Byte>, e: seq<Byte>)
    requires Ok(j) && j.st.String? && !j.inKey && j.pending == 0
    requires IsHex4(d) && IsHex4(e) && High(Hex4(d)) && !Low(Hex4(e))
    ensures Run(j, UEscape(d) + UEscape(e)) == Run(GivenUp(j, d), UEscape(e))
  {
    hide Run, Hex4, IsHex4, UEscape, Utf8, Cut, Low;
    HighWaits(j, d);
    RunSplit(j, UEscape(d), UEscape(e));
    OneEscape(Run(j, UEscape(d)), e);
    OneEscape(GivenUp(j, d), e);
  }
}
