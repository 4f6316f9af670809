/** Core 1's half of the word-run codec: tokens to the three lane buffers. */
module WordRunExpand {
  import opened Prelude
  import opened WordRun

  /** Where an id's words start in the table. */
  function Entry(id: Id): (e: nat)
    ensures e + 3 < 4 * WR_IDS
  {
    4 * id as nat
  }

  /** Word i of every lane is the table's word for `id`. */
  ghost predicate Cell(out: seq<Word>, stride: nat, table: seq<Word>, i: nat, id: Id) {
    && |out| == 3 * stride && i < stride && |table| == 4 * WR_IDS
    && out[i] == table[Entry(id)] && out[stride + i] == table[Entry(id) + 1] && out[2 * stride + i] == table[Entry(id) + 2]
  }

  /** The first n words of every lane are those of the given ids. */
  ghost predicate Shows(out: seq<Word>, stride: nat, table: seq<Word>, ids: seq<Id>, n: nat) {
    n <= |ids| && forall i :: 0 <= i < n ==> Cell(out, stride, table, i, ids[i])
  }

  method PutRun(out: array<Word>, stride: nat, o: nat, cnt: nat, table: seq<Word>, id: Id, ghost ids: seq<Id>)
    requires out.Length == 3 * stride && o + cnt <= stride == |ids| && |table| == 4 * WR_IDS
    requires Shows(out[..], stride, table, ids, o) && forall i :: o <= i < o + cnt ==> ids[i] == id
    modifies out
    ensures Shows(out[..], stride, table, ids, o + cnt)
  {
    hide Entry;
    var e := Entry(id);
    var w0, w1, w2 := table[e], table[e + 1], table[e + 2];
    ghost var before := out[..];
    FillWords(out, o, cnt, w0);
    FillWords(out, stride + o, cnt, w1);
    FillWords(out, 2 * stride + o, cnt, w2);
    forall i | 0 <= i < o + cnt ensures Cell(out[..], stride, table, i, ids[i]) {
      assert i < o ==> Cell(before, stride, table, i, ids[i]);
    }
  }

  method FillWords(out: array<Word>, from: nat, cnt: nat, w: Word)
    requires from + cnt <= out.Length
    modifies out
    ensures forall i :: 0 <= i < out.Length ==> out[i] == if from <= i < from + cnt then w else old(out[i])
  {
    for k := from to from + cnt
      invariant forall i :: 0 <= i < out.Length ==> out[i] == if from <= i < k then w else old(out[i])
    {
      out[k] := w;
    }
  }

  method PutLiterals(out: array<Word>, stride: nat, o: nat, cnt: nat, table: seq<Word>, bytes: seq<Byte>, ghost ids: seq<Id>)
    requires out.Length == 3 * stride && o + cnt <= stride == |ids| && |table| == 4 * WR_IDS && |bytes| == 2 * cnt
    requires Shows(out[..], stride, table, ids, o) && forall i :: o <= i < o + cnt ==> ids[i] == Literals(bytes)[i - o]
    modifies out
    ensures Shows(out[..], stride, table, ids, o + cnt)
  {
    for k := 0 to cnt
      invariant Shows(out[..], stride, table, ids, o + k)
    {
      var id := LiteralId(Token(bytes[2 * k], bytes[2 * k + 1]));
      assert ids[o + k] == Literals(bytes)[k] == id;
      PutWords(out, stride, o + k, table, id, ids);
    }
  }

  method PutWords(out: array<Word>, stride: nat, at: nat, table: seq<Word>, id: Id, ghost ids: seq<Id>)
    requires out.Length == 3 * stride && at < stride == |ids| && |table| == 4 * WR_IDS && ids[at] == id
    requires Shows(out[..], stride, table, ids, at)
    modifies out
    ensures Shows(out[..], stride, table, ids, at + 1)
  {
    hide Entry;
    var e := Entry(id);
    ghost var before := out[..];
    out[at], out[stride + at], out[2 * stride + at] := table[e], table[e + 1], table[e + 2];
    forall i | 0 <= i < at + 1 ensures Cell(out[..], stride, table, i, ids[i]) {
      assert i < at ==> Cell(before, stride, table, i, ids[i]);
    }
  }

  /** Any bytes at all fill exactly width/2 words of each lane, each from the table: the words of the
      ids the stream gives, cut at the room there is and padded with id 0. */
  method ExpandLine(tok: seq<Byte>, out: array<Word>, width: nat, table: seq<Word>)
    requires out.Length == 3 * (width / 2) && |table| == 4 * WR_IDS
    modifies out
    ensures Shows(out[..], width / 2, table, Line(tok, width / 2), width / 2)
  {
    hide Cell, Line, Literals, Token, RunCount, RunId, Repeat;
    var stride := width / 2;
    ghost var ids := Line(tok, stride);
    var o, p := 0, 0;
    assert tok[0..] == tok;
    while p + 1 < |tok| && o < stride
      invariant 0 <= o <= stride && 0 <= p <= |tok|
      invariant Shows(out[..], stride, table, ids, o)
      invariant ids[o..] == Line(tok[p..], stride - o)
    {
      var t := Token(tok[p], tok[p + 1]);
      p := p + 2;
      if t >= LITERAL {
        var cnt := Min(Min(t - LITERAL, (|tok| - p) / 2), stride - o);
        LiteralAt(tok, p, stride - o, cnt);
        Advance(ids, o, Literals(tok[p..p + 2 * cnt]), Line(tok[p + 2 * cnt..], stride - o - cnt));
        PutLiterals(out, stride, o, cnt, table, tok[p..p + 2 * cnt], ids);
        p, o := p + 2 * cnt, o + cnt;
      } else {
        var cnt := Min(RunCount(t), stride - o);
        RunAt(tok, p, stride - o, cnt);
        Advance(ids, o, Repeat<Id>(RunId(t), cnt), Line(tok[p..], stride - o - cnt));
        RepeatAt(RunId(t), cnt);
        PutRun(out, stride, o, cnt, table, RunId(t), ids);
        o := o + cnt;
      }
    }
    LineShort(tok[p..], stride - o);
    RepeatAt(0, stride - o);
    assert forall i :: o <= i < stride ==> ids[i] == ids[o..][i - o];
    PutRun(out, stride, o, stride - o, table, 0, ids);
  }

  lemma RepeatAt(id: Id, n: nat)
    ensures forall i :: 0 <= i < n ==> Repeat<Id>(id, n)[i] == id
  {
  }

  lemma {:induction false} LiteralAt(tok: seq<Byte>, p: nat, room: nat, cnt: nat)
    requires 2 <= p <= |tok| && room > 0 && Token(tok[p - 2], tok[p - 1]) >= LITERAL
    requires cnt == Min(Min(Token(tok[p - 2], tok[p - 1]) - LITERAL, (|tok| - p) / 2), room)
    ensures |Literals(tok[p..p + 2 * cnt])| == cnt
    ensures Line(tok[p - 2..], room) == Literals(tok[p..p + 2 * cnt]) + Line(tok[p + 2 * cnt..], room - cnt)
  {
    hide Line, Literals, Token;
    LiteralUnfold(tok[p - 2..], room, cnt);
    Literal2(tok, p, cnt);
  }

  lemma {:induction false} RunAt(tok: seq<Byte>, p: nat, room: nat, cnt: nat)
    requires 2 <= p <= |tok| && room > 0 && Token(tok[p - 2], tok[p - 1]) < LITERAL
    requires cnt == Min(RunCount(Token(tok[p - 2], tok[p - 1])), room)
    ensures Line(tok[p - 2..], room) == Repeat<Id>(RunId(Token(tok[p - 2], tok[p - 1])), cnt) + Line(tok[p..], room - cnt)
  {
    hide Line, Token, RunCount, RunId;
    RunUnfold(tok[p - 2..], room, cnt);
    assert tok[p - 2..][2..] == tok[p..];
  }

  lemma {:induction false} Literal2(tok: seq<Byte>, p: nat, cnt: nat)
    requires 2 <= p && p + 2 * cnt <= |tok|
    ensures tok[p - 2..][2..][..2 * cnt] == tok[p..p + 2 * cnt] && tok[p - 2..][2..][2 * cnt..] == tok[p + 2 * cnt..]
  {
  }

  lemma {:induction false} RunUnfold(tok: seq<Byte>, room: nat, cnt: nat)
    requires |tok| >= 2 && room > 0 && Token(tok[0], tok[1]) < LITERAL && cnt == Min(RunCount(Token(tok[0], tok[1])), room)
    ensures Line(tok, room) == Repeat<Id>(RunId(Token(tok[0], tok[1])), cnt) + Line(tok[2..], room - cnt)
  {
    hide Token, RunCount, RunId, Repeat;
  }

  lemma {:induction false} LineShort(tok: seq<Byte>, room: nat)
    requires |tok| < 2 || room == 0
    ensures Line(tok, room) == Repeat<Id>(0, room)
  {
  }

  lemma {:induction false} Advance(ids: seq<Id>, o: nat, a: seq<Id>, b: seq<Id>)
    requires o <= |ids| && ids[o..] == a + b
    ensures o + |a| <= |ids| && ids[o + |a|..] == b
    ensures forall i :: o <= i < o + |a| ==> ids[i] == a[i - o]
  {
    assert forall i :: o <= i < o + |a| ==> ids[i] == ids[o..][i - o];
    assert ids[o..][|a|..] == ids[o + |a|..];
  }
}
