/** Word-run scanlines: tokens over 32-bit words, each word the TMDS symbols of two pixels. Core 0
    turns pixels into tokens, allocating ids for mixed pairs; core 1 expands tokens from the table. */
module WordRun {
  import opened Prelude

  const WR_IDS := 512
  const WR_PURE_IDS := 256
  const WR_RUN_MAX := 64
  const WR_RUN_MIN := 3
  const WR_SLOTS := 1024
  const LITERAL := 0x8000

  type Id = i: int | 0 <= i < 512

  // ---- the token stream ----------------------------------------------------------------------

  function Token(lo: Byte, hi: Byte): (t: nat)
    ensures t < 0x1_0000
  {
    lo + 256 * hi
  }

  function Bytes(t: nat): (b: seq<Byte>)
    requires t < 0x1_0000
    ensures |b| == 2 && Token(b[0], b[1]) == t
  {
    [t % 256, t / 256]
  }

  function RunId(t: nat): Id {
    t % 512
  }

  function RunCount(t: nat): (n: nat)
    ensures 1 <= n <= 64
  {
    t / 512 % 64 + 1
  }

  function LiteralId(t: nat): Id {
    t / 16 % 512
  }

  /** The ids of a literal block's words. */
  function Literals(bytes: seq<Byte>): (ids: seq<Id>)
    ensures |ids| == |bytes| / 2
  {
    seq<Id>(|bytes| / 2, i requires 0 <= i < |bytes| / 2 => LiteralId(Token(bytes[2 * i], bytes[2 * i + 1])))
  }

  /** Bytes of the token a stream starts with, its literal words included. */
  function HeadSize(tok: seq<Byte>): (n: nat)
    requires |tok| >= 2
    ensures n >= 2
  {
    var t := Token(tok[0], tok[1]);
    if t >= LITERAL then 2 + 2 * (t - LITERAL) else 2
  }

  function HeadIds(tok: seq<Byte>): (ids: seq<Id>)
    requires |tok| >= 2 && HeadSize(tok) <= |tok|
  {
    var t := Token(tok[0], tok[1]);
    if t >= LITERAL then Literals(tok[2..HeadSize(tok)]) else Repeat<Id>(RunId(t), RunCount(t))
  }

  /** The ids a well-formed token stream stands for. */
  function Decode(tok: seq<Byte>): Option<seq<Id>>
    decreases |tok|
  {
    if tok == [] then Some([])
    else if |tok| < 2 || HeadSize(tok) > |tok| then None
    else Prepend(HeadIds(tok), Decode(tok[HeadSize(tok)..]))
  }

  function Prepend(a: seq<Id>, b: Option<seq<Id>>): Option<seq<Id>> {
    if b.Some? then Some(a + b.value) else None
  }

  /** What the expander makes of any bytes at all: exactly `room` ids, padded with id 0. */
  function Line(tok: seq<Byte>, room: nat): (ids: seq<Id>)
    ensures |ids| == room
    decreases |tok|
  {
    if |tok| < 2 || room == 0 then Repeat<Id>(0, room)
    else
      var t, rest := Token(tok[0], tok[1]), tok[2..];
      if t >= LITERAL then
        var cnt := Min(Min(t - LITERAL, |rest| / 2), room);
        Literals(rest[..2 * cnt]) + Line(rest[2 * cnt..], room - cnt)
      else
        var cnt := Min(RunCount(t), room);
        Repeat<Id>(RunId(t), cnt) + Line(rest, room - cnt)
  }

  /** ids cut to `room`, or padded with id 0. */
  function Fit(ids: seq<Id>, room: nat): (r: seq<Id>)
    ensures |r| == room
  {
    if |ids| >= room then ids[..room] else ids + Repeat<Id>(0, room - |ids|)
  }

  lemma {:induction false} FitSplit(a: seq<Id>, b: seq<Id>, room: nat)
    ensures |a| <= room ==> Fit(a + b, room) == a + Fit(b, room - |a|)
    ensures |a| > room ==> Fit(a + b, room) == a[..room]
  {
  }

  lemma {:induction false} LiteralsTake(bytes: seq<Byte>, n: nat)
    requires 2 * n <= |bytes|
    ensures Literals(bytes[..2 * n]) == Literals(bytes)[..n]
  {
  }

  /** On a well-formed stream the expander's line is the stream's ids, cut or padded to the room. */
  lemma {:induction false} LineOfDecoded(tok: seq<Byte>, room: nat)
    requires Decode(tok).Some?
    ensures Line(tok, room) == Fit(Decode(tok).value, room)
    decreases |tok|
  {
    hide Literals, RunCount, RunId, Repeat, Fit, Line, HeadSize, HeadIds;
    if tok == [] || room == 0 {
      LineNone(tok, room);
      FitNone(Decode(tok).value, room);
    } else {
      var n, ids := HeadSize(tok), HeadIds(tok);
      LineHead(tok, room);
      FitSplit(ids, Decode(tok[n..]).value, room);
      if |ids| <= room { LineOfDecoded(tok[n..], room - |ids|); }
    }
  }

  lemma {:induction false} LineNone(tok: seq<Byte>, room: nat)
    requires tok == [] || room == 0
    ensures Line(tok, room) == Repeat<Id>(0, room)
  {
  }

  lemma {:induction false} FitNone(ids: seq<Id>, room: nat)
    requires ids == [] || room == 0
    ensures Fit(ids, room) == Repeat<Id>(0, room)
  {
  }

  /** The expander's view of a whole leading token. */
  lemma {:induction false} LineHead(tok: seq<Byte>, room: nat)
    requires |tok| >= 2 && room > 0 && HeadSize(tok) <= |tok|
    ensures |HeadIds(tok)| <= room ==>
              Line(tok, room) == HeadIds(tok) + Line(tok[HeadSize(tok)..], room - |HeadIds(tok)|)
    ensures |HeadIds(tok)| > room ==> Line(tok, room) == HeadIds(tok)[..room]
  {
    hide Literals, RunCount, RunId, Repeat;
    var t, rest := Token(tok[0], tok[1]), tok[2..];
    if t >= LITERAL {
      var cnt := Min(Min(t - LITERAL, |rest| / 2), room);
      LineLiteral(tok, room, cnt);
    } else {
      LineRun(tok, room);
    }
  }

  lemma {:induction false} LineLiteral(tok: seq<Byte>, room: nat, cnt: nat)
    requires |tok| >= 2 && room > 0 && HeadSize(tok) <= |tok| && Token(tok[0], tok[1]) >= LITERAL
    requires cnt == Min(Min(Token(tok[0], tok[1]) - LITERAL, (|tok| - 2) / 2), room)
    ensures |HeadIds(tok)| <= room ==>
              Line(tok, room) == HeadIds(tok) + Line(tok[HeadSize(tok)..], room - |HeadIds(tok)|)
    ensures |HeadIds(tok)| > room ==> Line(tok, room) == HeadIds(tok)[..room]
  {
    hide Line, Literals, HeadIds, Repeat;
    var whole := Token(tok[0], tok[1]) - LITERAL;
    LiteralUnfold(tok, room, cnt);
    LiteralHead(tok, whole);
    Slices(tok, 2 * whole, 2 * cnt);
    LiteralsTake(tok[2..][..2 * whole], cnt);
    if whole > room { LineZero(tok[2 + 2 * cnt..]); }
  }

  lemma {:induction false} LiteralUnfold(tok: seq<Byte>, room: nat, cnt: nat)
    requires |tok| >= 2 && room > 0 && Token(tok[0], tok[1]) >= LITERAL
    requires cnt == Min(Min(Token(tok[0], tok[1]) - LITERAL, (|tok| - 2) / 2), room)
    ensures Line(tok, room) == Literals(tok[2..][..2 * cnt]) + Line(tok[2..][2 * cnt..], room - cnt)
  {
    hide Literals, Repeat;
  }

  lemma {:induction false} LiteralHead(tok: seq<Byte>, whole: nat)
    requires |tok| >= 2 && HeadSize(tok) <= |tok| && Token(tok[0], tok[1]) == LITERAL + whole
    ensures HeadSize(tok) == 2 + 2 * whole && HeadIds(tok) == Literals(tok[2..2 + 2 * whole]) && |HeadIds(tok)| == whole
  {
  }

  lemma Slices(tok: seq<Byte>, h: nat, c: nat)
    requires c <= h && 2 + h <= |tok|
    ensures tok[2..2 + h] == tok[2..][..h] && tok[2..][..h][..c] == tok[2..][..c] && tok[2..][c..] == tok[2 + c..]
  {
  }

  lemma {:induction false} LineZero(tok: seq<Byte>)
    ensures Line(tok, 0) == []
  {
  }

  lemma {:induction false} LineRun(tok: seq<Byte>, room: nat)
    requires |tok| >= 2 && room > 0 && Token(tok[0], tok[1]) < LITERAL
    ensures |HeadIds(tok)| <= room ==>
              Line(tok, room) == HeadIds(tok) + Line(tok[HeadSize(tok)..], room - |HeadIds(tok)|)
    ensures |HeadIds(tok)| > room ==> Line(tok, room) == HeadIds(tok)[..room]
  {
    hide RunCount, RunId;
    var t := Token(tok[0], tok[1]);
    LineZero(tok[2..]);
    assert Line(tok, room) == Repeat<Id>(RunId(t), Min(RunCount(t), room)) + Line(tok[2..], room - Min(RunCount(t), room));
  }

  lemma {:induction false} HeadAppend(a: seq<Byte>, b: seq<Byte>)
    requires |a| >= 2 && HeadSize(a) <= |a|
    ensures HeadSize(a + b) == HeadSize(a) && HeadIds(a + b) == HeadIds(a)
    ensures (a + b)[HeadSize(a)..] == a[HeadSize(a)..] + b
  {
    hide Literals, RunCount, RunId, Repeat;
    assert (a + b)[2..HeadSize(a)] == a[2..HeadSize(a)];
  }

  lemma {:induction false} DecodeAppend(a: seq<Byte>, b: seq<Byte>)
    requires Decode(a).Some? && Decode(b).Some?
    ensures Decode(a + b) == Some(Decode(a).value + Decode(b).value)
    decreases |a|
  {
    hide HeadIds, HeadSize;
    if a == [] {
      assert a + b == b;
      var y: seq<Id> := Decode(b).value;
      assert [] + y == y;
    } else {
      HeadAppend(a, b);
      DecodeAppend(a[HeadSize(a)..], b);
      var x, y, z := HeadIds(a), Decode(a[HeadSize(a)..]).value, Decode(b).value;
      assert x + (y + z) == (x + y) + z;
    }
  }
}
