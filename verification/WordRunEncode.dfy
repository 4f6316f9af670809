/** Core 0's half of the word-run codec: the pair table and the encoder. */
module WordRunEncode {
  import opened Prelude
  import opened WordRun
  import opened WordRunPairs
  import opened WordRunExpand
  import L = TmdsLevels

  /** A 10-bit TMDS symbol. */
  type Symbol = s: int | 0 <= s < 1024

  function LeftOf(keys: seq<nat>, id: Id): (p: nat)
    requires id < WR_PURE_IDS + |keys| && forall i :: 0 <= i < |keys| ==> keys[i] < 0x1_0000
    ensures p < 256
  {
    if id < WR_PURE_IDS then id else keys[id - WR_PURE_IDS] / 256
  }

  function RightOf(keys: seq<nat>, id: Id): (p: nat)
    requires id < WR_PURE_IDS + |keys|
    ensures p < 256
  {
    if id < WR_PURE_IDS then id else keys[id - WR_PURE_IDS] % 256
  }

  function Join(left: Symbol, right: Symbol): Word {
    left + 1024 * (right as nat)
  }

  /** Twenty bits, the left pixel's symbol in the ten that are sent first. */
  lemma JoinParts(left: Symbol, right: Symbol)
    ensures Join(left, right) % 1024 == left && Join(left, right) / 1024 == right
  {
  }

  /** A word of one lane: the symbols of its left and its right pixel. */
  function WordOf(sym: seq<Symbol>, lane: nat, a: nat, b: nat): Word
    requires |sym| == 768 && lane < 3 && a < 256 && b < 256
  {
    Join(sym[256 * lane + a], sym[256 * lane + b])
  }

  ghost predicate EntryIs(table: seq<Word>, sym: seq<Symbol>, id: Id, a: nat, b: nat) {
    && |table| == 4 * WR_IDS && |sym| == 768 && a < 256 && b < 256
    && table[Entry(id)] == WordOf(sym, 0, a, b)
    && table[Entry(id) + 1] == WordOf(sym, 1, a, b)
    && table[Entry(id) + 2] == WordOf(sym, 2, a, b)
  }

  /** Every id given out has its pair's words. */
  ghost predicate TableIs(table: seq<Word>, sym: seq<Symbol>, keys: seq<nat>) {
    && (forall i :: 0 <= i < |keys| ==> keys[i] < 0x1_0000)
    && forall id: Id :: id < WR_PURE_IDS + |keys| ==> EntryIs(table, sym, id, LeftOf(keys, id), RightOf(keys, id))
  }

  /** No pair in the table uses colour idx. */
  ghost predicate Unpaired(keys: seq<nat>, idx: Byte) {
    forall i :: 0 <= i < |keys| ==> keys[i] / 256 != idx && keys[i] % 256 != idx
  }

  /** Every pair in the table is of two of the first n colours. */
  ghost predicate PairsBelow(keys: seq<nat>, n: nat) {
    forall i :: 0 <= i < |keys| ==> keys[i] / 256 < n && keys[i] % 256 < n
  }

  ghost predicate ColoursBelow(px: seq<Byte>, n: nat) {
    forall x :: 0 <= x < |px| ==> px[x] < n
  }

  /** Pairs that were added are of the line's colours. */
  ghost predicate Drawn(keys: seq<nat>, keys': seq<nat>, px: seq<Byte>) {
    forall n: nat :: PairsBelow(keys, n) && ColoursBelow(px, n) ==> PairsBelow(keys', n)
  }

  lemma {:induction false} DrawnOn(a: seq<nat>, b: seq<nat>, c: seq<nat>, px: seq<Byte>)
    requires Drawn(a, b, px) && Drawn(b, c, px)
    ensures Drawn(a, c, px)
  {
    hide PairsBelow, ColoursBelow;
  }

  lemma {:induction false} NoneDrawn(keys: seq<nat>, px: seq<Byte>)
    ensures Drawn(keys, keys, px)
  {
    hide PairsBelow, ColoursBelow;
  }

  lemma {:induction false} PairDrawn(keys: seq<nat>, keys': seq<nat>, px: seq<Byte>, i: nat)
    requires 2 * i + 1 < |px|
    requires keys' == keys || keys' == keys + [Key(Left(px, i), Right(px, i))]
    ensures Drawn(keys, keys', px)
  {
    var k := Key(Left(px, i), Right(px, i));
    forall n: nat | PairsBelow(keys, n) && ColoursBelow(px, n) ensures PairsBelow(keys', n) {
      forall j | 0 <= j < |keys'| ensures keys'[j] / 256 < n && keys'[j] % 256 < n {
        if j == |keys| { assert keys'[j] == k; }
      }
    }
  }

  lemma {:induction false} TableAfter(table: seq<Word>, sym: seq<Symbol>, keys: seq<nat>, k: nat, table': seq<Word>)
    requires TableIs(table, sym, keys) && k < 0x1_0000 && |keys| < FREE_IDS && |table'| == |table|
    requires EntryIs(table', sym, WR_PURE_IDS + |keys|, k / 256, k % 256)
    requires forall i :: 0 <= i < Entry(WR_PURE_IDS + |keys|) ==> table'[i] == table[i]
    ensures TableIs(table', sym, keys + [k])
  {
    hide WordOf;
    forall id: Id | id < WR_PURE_IDS + |keys| + 1
      ensures EntryIs(table', sym, id, LeftOf(keys + [k], id), RightOf(keys + [k], id))
    {
      if id < WR_PURE_IDS + |keys| { assert EntryIs(table, sym, id, LeftOf(keys, id), RightOf(keys, id)); }
    }
  }

  lemma {:induction false} TableRecoloured(table: seq<Word>, sym: seq<Symbol>, keys: seq<nat>, idx: Byte, table': seq<Word>,
                                           sym': seq<Symbol>)
    requires TableIs(table, sym, keys) && Unpaired(keys, idx) && |table'| == |table| && |sym'| == |sym| == 768
    requires forall i :: 0 <= i < 768 && i % 256 != idx ==> sym'[i] == sym[i]
    requires EntryIs(table', sym', idx, idx, idx)
    requires forall i :: 0 <= i < |table| && i / 4 != idx ==> table'[i] == table[i]
    ensures TableIs(table', sym', keys)
  {
    forall id: Id | id < WR_PURE_IDS + |keys|
      ensures EntryIs(table', sym', id, LeftOf(keys, id), RightOf(keys, id))
    {
      if id != idx { Unrecoloured(table, sym, keys, idx, table', sym', id); }
    }
  }

  lemma {:induction false} Unrecoloured(table: seq<Word>, sym: seq<Symbol>, keys: seq<nat>, idx: Byte, table': seq<Word>,
                                        sym': seq<Symbol>, id: Id)
    requires TableIs(table, sym, keys) && Unpaired(keys, idx) && |table'| == |table| && |sym'| == |sym| == 768
    requires forall i :: 0 <= i < 768 && i % 256 != idx ==> sym'[i] == sym[i]
    requires forall i :: 0 <= i < |table| && i / 4 != idx ==> table'[i] == table[i]
    requires id < WR_PURE_IDS + |keys| && id != idx
    ensures EntryIs(table', sym', id, LeftOf(keys, id), RightOf(keys, id))
  {
    var a, b := LeftOf(keys, id), RightOf(keys, id);
    assert EntryIs(table, sym, id, a, b);
    assert a != idx && b != idx;
    SameWord(sym, sym', idx, 0, a, b);
    SameWord(sym, sym', idx, 1, a, b);
    SameWord(sym, sym', idx, 2, a, b);
    hide WordOf, Unpaired, TableIs;
    var e := Entry(id);
    assert e / 4 == id && (e + 1) / 4 == id && (e + 2) / 4 == id;
  }

  lemma {:induction false} SameWord(sym: seq<Symbol>, sym': seq<Symbol>, idx: Byte, lane: nat, a: nat, b: nat)
    requires |sym'| == |sym| == 768 && lane < 3 && a < 256 && b < 256 && a != idx && b != idx
    requires forall i :: 0 <= i < 768 && i % 256 != idx ==> sym'[i] == sym[i]
    ensures WordOf(sym', lane, a, b) == WordOf(sym, lane, a, b)
  {
    assert (256 * lane + a) % 256 == a && (256 * lane + b) % 256 == b;
  }

  // ---- lines of pixels -----------------------------------------------------------------------

  /** Pixels 2i and 2i+1. */
  function Left(px: seq<Byte>, i: nat): Byte
    requires 2 * i + 1 < |px|
  {
    px[2 * i]
  }

  function Right(px: seq<Byte>, i: nat): Byte
    requires 2 * i + 1 < |px|
  {
    px[2 * i + 1]
  }

  /** Words [i, j) are all plain and of word i's colour. */
  ghost predicate Plain(px: seq<Byte>, i: nat, j: nat)
    requires i < j && 2 * j <= |px|
  {
    forall k: nat :: i <= k < j ==> Left(px, k) == Left(px, i) && Right(px, k) == Left(px, i)
  }

  /** The ids of words [i, j). */
  ghost function IdsOf(keys: seq<nat>, px: seq<Byte>, i: nat, j: nat): (ids: seq<Id>)
    requires i <= j && 2 * j <= |px|
    ensures |ids| == j - i
  {
    seq<Id>(j - i, k requires 0 <= k < j - i => IdFor(keys, Left(px, i + k), Right(px, i + k)))
  }

  ghost predicate AllSettled(keys: seq<nat>, px: seq<Byte>, i: nat, j: nat)
    requires i <= j && 2 * j <= |px|
  {
    forall k: nat :: i <= k < j ==> Settled(keys, Left(px, k), Right(px, k))
  }

  /** Ids once settled do not change as pairs are added. */
  lemma {:induction false} IdsStay(keys: seq<nat>, keys': seq<nat>, px: seq<Byte>, i: nat, j: nat)
    requires i <= j && 2 * j <= |px| && Grows(keys, keys') && AllSettled(keys, px, i, j)
    ensures AllSettled(keys', px, i, j) && IdsOf(keys', px, i, j) == IdsOf(keys, px, i, j)
  {
    hide Settled, IdFor, Grows;
    forall k: nat | i <= k < j
      ensures Settled(keys', Left(px, k), Right(px, k))
      ensures IdFor(keys', Left(px, k), Right(px, k)) == IdFor(keys, Left(px, k), Right(px, k))
    {
      IdStays(keys, keys', Left(px, k), Right(px, k));
    }
  }

  lemma {:induction false} IdsJoin(keys: seq<nat>, px: seq<Byte>, i: nat, j: nat, k: nat)
    requires i <= j <= k && 2 * k <= |px|
    ensures IdsOf(keys, px, i, k) == IdsOf(keys, px, i, j) + IdsOf(keys, px, j, k)
    ensures AllSettled(keys, px, i, j) && AllSettled(keys, px, j, k) ==> AllSettled(keys, px, i, k)
  {
    hide IdFor, Settled;
  }

  lemma {:induction false} PlainIds(keys: seq<nat>, px: seq<Byte>, i: nat, j: nat)
    requires i < j && 2 * j <= |px| && Plain(px, i, j)
    ensures IdsOf(keys, px, i, j) == Repeat<Id>(Left(px, i), j - i) && AllSettled(keys, px, i, j)
  {
    forall k: nat | i <= k < j
      ensures IdFor(keys, Left(px, k), Right(px, k)) == Left(px, i) && Settled(keys, Left(px, k), Right(px, k))
    {
      assert Left(px, k) == Left(px, i) && Right(px, k) == Left(px, i);
    }
  }

  // ---- tokens --------------------------------------------------------------------------------

  lemma {:induction false} RunToken(id: Id, n: nat)
    requires 1 <= n <= WR_RUN_MAX
    ensures var t := (n - 1) * 512 + id; t < LITERAL && Decode(Bytes(t)) == Some(Repeat<Id>(id, n))
  {
    var t := (n - 1) * 512 + id;
    assert RunId(t) == id && RunCount(t) == n;
    var b := Bytes(t);
    assert b[2..] == [];
    var r := Repeat<Id>(id, n);
    assert r + [] == r;
    assert Decode(b) == Prepend(HeadIds(b), Decode([]));
  }

  lemma {:induction false} RepeatJoin(id: Id, a: nat, b: nat)
    ensures Repeat<Id>(id, a) + Repeat<Id>(id, b) == Repeat<Id>(id, a + b)
  {
  }

  /** The bytes of a literal block's words. */
  ghost function LiteralBytes(ids: seq<Id>): (b: seq<Byte>)
    ensures |b| == 2 * |ids|
  {
    if ids == [] then [] else LiteralBytes(ids[..|ids| - 1]) + Bytes(LiteralToken(ids[|ids| - 1]))
  }

  function LiteralToken(id: Id): (t: nat)
    ensures t < 0x1_0000 && LiteralId(t) == id
  {
    16 * (id as nat)
  }

  lemma {:induction false} LiteralsBack(ids: seq<Id>)
    ensures Literals(LiteralBytes(ids)) == ids
  {
    if ids != [] {
      var n := |ids| - 1;
      LiteralsBack(ids[..n]);
      var b, pre := LiteralBytes(ids), LiteralBytes(ids[..n]);
      LiteralsTake(b, n);
      assert b[..2 * n] == pre;
      assert b[2 * n] == Bytes(LiteralToken(ids[n]))[0] && b[2 * n + 1] == Bytes(LiteralToken(ids[n]))[1];
      assert Literals(b)[n] == ids[n];
    }
  }

  lemma {:induction false} LiteralBlock(ids: seq<Id>)
    requires |ids| < 0x8000
    ensures Decode(Bytes(LITERAL + |ids|) + LiteralBytes(ids)) == Some(ids)
  {
    hide Literals, LiteralBytes, Bytes;
    LiteralsBack(ids);
    var h := Bytes(LITERAL + |ids|);
    var b := h + LiteralBytes(ids);
    assert b[0] == h[0] && b[1] == h[1];
    LiteralHead(b, |ids|);
    assert b[2..2 + 2 * |ids|] == LiteralBytes(ids);
    assert b[HeadSize(b)..] == [];
    assert ids + [] == ids;
  }

  method PutToken(t: nat, out: array<Byte>, n: nat)
    requires t < 0x1_0000 && n + 2 <= out.Length
    modifies out
    ensures out[..n + 2] == old(out[..n]) + Bytes(t)
  {
    out[n] := t % 256;
    out[n + 1] := t / 256;
  }

  /** Tokens for `len` words of one id, at most 64 words each; none fit when they would pass max. */
  method PutRunTokens(id: Id, len: nat, out: array<Byte>, from: nat, max: nat) returns (ok: bool, n: nat, ghost bytes: seq<Byte>)
    requires from <= max <= out.Length
    modifies out
    ensures from <= n <= max && (ok ==> n == from + 2 * ((len + 63) / 64))
    ensures ok ==> out[..n] == old(out[..from]) + bytes && Decode(bytes) == Some(Repeat<Id>(id, len))
    ensures !ok ==> max < from + 2 * ((len + 63) / 64)
  {
    hide Decode, Bytes, Repeat;
    n, bytes := from, [];
    ghost var done := 0;
    var left := len;
    DecodeNothing(id);
    while left > 0
      invariant left + done == len && from <= n <= max && 0 <= left
      invariant n == from + 2 * ((len + 63) / 64) - 2 * ((left + 63) / 64)
      invariant out[..n] == old(out[..from]) + bytes && Decode(bytes) == Some(Repeat<Id>(id, done))
    {
      var take := if left > WR_RUN_MAX then WR_RUN_MAX else left;
      if n + 2 > max { return false, n, bytes; }
      RunToken(id, take);
      DecodeAppend(bytes, Bytes((take - 1) * 512 + id));
      RepeatJoin(id, done, take);
      PutToken((take - 1) * 512 + id, out, n);
      bytes := bytes + Bytes((take - 1) * 512 + id);
      n, left, done := n + 2, left - take, done + take;
    }
    ok := true;
  }

  lemma {:induction false} DecodeNothing(id: Id)
    ensures Decode([]) == Some(Repeat<Id>(id, 0))
  {
  }

  /** First word at or after i that is not plain of word i's colour, looking at `cap` words at most. */
  method PlainRun(px: seq<Byte>, i: nat, words: nat, cap: nat) returns (j: nat)
    requires i < words && 2 * words <= |px| && cap >= 1 && Left(px, i) == Right(px, i)
    ensures i < j <= words && j - i <= cap && Plain(px, i, j)
    ensures j < words && j - i < cap ==> Left(px, j) != Left(px, i) || Right(px, j) != Left(px, i)
  {
    j := i + 1;
    while j < words && j - i < cap && Left(px, j) == Left(px, i) && Right(px, j) == Left(px, i)
      invariant i < j <= words && j - i <= cap && Plain(px, i, j)
    {
      j := j + 1;
    }
  }

  /** At least WR_RUN_MIN equal plain words start at i. */
  ghost predicate LongRun(px: seq<Byte>, i: nat, words: nat)
    requires 2 * words <= |px|
  {
    i + WR_RUN_MIN <= words && Plain(px, i, i + WR_RUN_MIN)
  }

  /** The first long run at or after i, or the end of the line. */
  ghost function NextLong(px: seq<Byte>, i: nat, words: nat): (j: nat)
    requires i <= words && 2 * words <= |px|
    ensures i <= j <= words && (i < words && !LongRun(px, i, words) ==> j > i)
    decreases words - i
  {
    if i == words || LongRun(px, i, words) then i else NextLong(px, i + 1, words)
  }

  /** Where the plain run that starts at i and reaches j ends. */
  ghost function RunEnd(px: seq<Byte>, i: nat, j: nat, words: nat): (e: nat)
    requires i < j <= words && 2 * words <= |px|
    ensures j <= e <= words
    decreases words - j
  {
    if j < words && Left(px, j) == Left(px, i) && Right(px, j) == Left(px, i) then RunEnd(px, i, j + 1, words) else j
  }

  lemma {:induction false} RunEndIs(px: seq<Byte>, i: nat, k: nat, j: nat, words: nat)
    requires i < k <= j <= words && 2 * words <= |px| && Plain(px, i, j)
    requires j < words ==> Left(px, j) != Left(px, i) || Right(px, j) != Left(px, i)
    ensures RunEnd(px, i, k, words) == j
    decreases j - k
  {
    if k < j { RunEndIs(px, i, k + 1, j, words); }
  }

  /** The bytes of the tokens for words i.. of a line: two for each 64 words of a long run, two for a
      word on its own, two a word and two more for a block of others. */
  ghost function Size(px: seq<Byte>, i: nat, words: nat): (n: nat)
    requires i <= words && 2 * words <= |px|
    decreases words - i
  {
    if i == words then 0
    else if LongRun(px, i, words) then
      var j := RunEnd(px, i, i + 1, words);
      2 * ((j - i + 63) / 64) + Size(px, j, words)
    else
      var j := NextLong(px, i, words);
      BlockSize(j - i) + Size(px, j, words)
  }

  function BlockSize(words: nat): nat { if words == 1 then 2 else 2 + 2 * words }

  lemma {:induction false} RunSize(px: seq<Byte>, i: nat, j: nat, words: nat)
    requires i < j <= words && 2 * words <= |px| && Plain(px, i, j) && LongRun(px, i, words)
    requires j < words ==> Left(px, j) != Left(px, i) || Right(px, j) != Left(px, i)
    ensures Size(px, i, words) == 2 * ((j - i + 63) / 64) + Size(px, j, words)
  {
    RunEndIs(px, i, i + 1, j, words);
  }

  /** Where the literal block starting at `start` ends: the next long run, or the end of the line. */
  method LiteralEnd(px: seq<Byte>, start: nat, words: nat) returns (i: nat)
    requires start < words && 2 * words <= |px| && words < 0x8000
    requires !LongRun(px, start, words)
    ensures start < i <= words && (i == words || LongRun(px, i, words))
    ensures i == NextLong(px, start, words)
  {
    i := start;
    while i < words
      invariant start <= i <= words
      invariant i == start ==> !LongRun(px, i, words)
      invariant NextLong(px, i, words) == NextLong(px, start, words)
    {
      if Left(px, i) == Right(px, i) {
        var j := PlainRun(px, i, words, WR_RUN_MIN);
        if j - i >= WR_RUN_MIN { return; }
      }
      assert !LongRun(px, i, words);
      i := i + 1;
    }
  }

  class Encoder {
    const table: array<Word>
    const sym: array<Symbol>
    const slot: array<nat>
    const key: array<nat>
    var nextId: nat
    ghost var pos: seq<nat>

    ghost predicate Valid()
      reads this, slot, key
    {
      && table.Length == 4 * WR_IDS && sym.Length == 768 && slot.Length == WR_SLOTS && key.Length == WR_IDS
      && slot != key && WR_PURE_IDS <= nextId <= WR_IDS
      && Indexed(slot[..], Keys(), pos)
    }

    ghost function Keys(): seq<nat>
      reads this`nextId, key
    {
      if WR_PURE_IDS <= nextId <= key.Length then key[WR_PURE_IDS..nextId] else []
    }

    /** Every id's words are the symbols its pixels have now. */
    ghost predicate Current()
      reads this`nextId, table, sym, key
    {
      TableIs(table[..], sym[..], Keys())
    }

    /** wr_init: every id black, no pairs. */
    constructor ()
      ensures Valid() && Current() && Keys() == []
      ensures fresh(table) && fresh(sym) && fresh(slot) && fresh(key)
      ensures forall i :: 0 <= i < 768 ==> sym[i] == L.LevelSymbol(0)
    {
      hide L.LevelSymbol;
      var black: Symbol := L.LevelSymbol(0);
      var w := Join(black, black);
      table := new Word[4 * WR_IDS](i => if i % 4 == 3 then 0 else w);
      sym := new Symbol[768](_ => black);
      slot := new nat[WR_SLOTS](_ => 0);
      key := new nat[WR_IDS](_ => 0);
      nextId := WR_PURE_IDS;
      pos := [];
      new;
      assert Keys() == [];
      NothingIndexed(slot[..]);
      AllBlack(table[..], sym[..], black, Keys());
    }

    method SetWord(id: Id, a: Byte, b: Byte)
      requires table.Length == 4 * WR_IDS && sym.Length == 768
      modifies table
      ensures EntryIs(table[..], sym[..], id, a, b)
      ensures forall i :: 0 <= i < table.Length && i / 4 != id ==> table[i] == old(table[i])
    {
      var e := Entry(id);
      table[e] := WordOf(sym[..], 0, a, b);
      table[e + 1] := WordOf(sym[..], 1, a, b);
      table[e + 2] := WordOf(sym[..], 2, a, b);
      table[e + 3] := 0;
    }

    /** wr_set_colour: each lane's symbol of the colour's nearest balanced level, blue first. Only the
        colour's own words change, so every id's words stay current unless a pair uses the colour. */
    method SetColour(idx: Byte, rgb: nat)
      requires Valid()
      modifies table, sym
      ensures Valid() && Keys() == old(Keys())
      ensures sym[idx] == L.LevelSymbol(rgb % 256) && sym[256 + idx] == L.LevelSymbol(rgb / 256 % 256)
              && sym[512 + idx] == L.LevelSymbol(rgb / 0x1_0000 % 256)
      ensures forall i :: 0 <= i < 768 && i % 256 != idx ==> sym[i] == old(sym[i])
      ensures EntryIs(table[..], sym[..], idx, idx, idx)
      ensures forall i :: 0 <= i < table.Length && i / 4 != idx ==> table[i] == old(table[i])
      ensures old(Current()) && Unpaired(Keys(), idx) ==> Current()
    {
      hide Indexed, TableIs, EntryIs, L.LevelSymbol;
      ghost var t, y := table[..], sym[..];
      sym[idx] := L.LevelSymbol(rgb % 256);
      sym[256 + idx] := L.LevelSymbol(rgb / 256 % 256);
      sym[512 + idx] := L.LevelSymbol(rgb / 0x1_0000 % 256);
      SetWord(idx, idx, idx);
      if TableIs(t, y, Keys()) && Unpaired(Keys(), idx) { TableRecoloured(t, y, Keys(), idx, table[..], sym[..]); }
    }

    /** Forget the mixed pairs; the plain ids stay. */
    method ResetPairs()
      requires Valid() && Current()
      modifies this`nextId, this`pos, slot
      ensures Valid() && Current() && Keys() == []
    {
      hide Indexed, TableIs;
      ghost var t, y, none: seq<nat> := table[..], sym[..], [];
      TableFewer(t, y, Keys(), none);
      forall i | 0 <= i < slot.Length { slot[i] := 0; }
      NothingIndexed(slot[..]);
      nextId := WR_PURE_IDS;
      pos := [];
      assert Keys() == none;
      assert table[..] == t && sym[..] == y;
    }

    /** The probe for a key: the slot that holds it, or the first empty one, and never an endless walk. */
    method Probe(k: nat) returns (h: nat, found: bool)
      requires Valid() && k < 0x1_0000
      ensures h < WR_SLOTS && found == (slot[h] != 0)
      ensures found ==> KeyAt(slot[..], Keys(), h) == k
      ensures !found ==> k !in Keys() && Packed(slot[..], Hash(k), Dist(Hash(k), h))
    {
      hide Hash, Indexed, KeyAt, At, Dist, Packed, Passed;
      ghost var s, keys := slot[..], Keys();
      h := Hash(k);
      ghost var home, d := h, 0;
      ghost var hole := EmptySlot(s, keys, pos);
      PassedNone(s, keys, home, k);
      if slot[h] != 0 { SlotHolds(s, keys, pos, h); }
      while slot[h] != 0 && key[slot[h] - 1] != k
        invariant 0 <= d <= Dist(home, hole) && h == At(home, d)
        invariant Passed(s, keys, home, k, d)
        invariant slot[h] != 0 ==> 0 < slot[h] <= WR_IDS && key[slot[h] - 1] == KeyAt(s, keys, h)
        decreases Dist(home, hole) - d
      {
        PassedStep(s, keys, home, k, d, hole);
        h := if h + 1 == WR_SLOTS then 0 else h + 1;
        d := d + 1;
        if slot[h] != 0 { SlotHolds(s, keys, pos, h); }
      }
      found := slot[h] != 0;
      DistAt(home, d);
      PassedPacked(s, keys, home, k, d);
      if !found { Absent(s, keys, pos, k, d); }
    }

    /** pair_id: the id the pair has or is given now, or the left pixel's own once all are taken. */
    method PairId(a: Byte, b: Byte) returns (id: Id)
      requires Valid() && Current()
      modifies this`nextId, this`pos, slot, key, table
      ensures Valid() && Current() && Grows(old(Keys()), Keys())
      ensures id == IdFor(Keys(), a, b) && Settled(Keys(), a, b)
      ensures Keys() == old(Keys()) || Keys() == old(Keys()) + [Key(a, b)]
    {
      hide Indexed, TableIs, EntryIs, Packed, Hash, KeyAt, Find, Dist;
      ghost var keys := Keys();
      KeysFew(slot[..], keys, pos);
      if a == b { return a; }
      var k := Key(a, b);
      var h, found := Probe(k);
      if found {
        IdFound(slot[..], keys, pos, h, a, b);
        return slot[h] - 1;
      }
      if nextId >= WR_IDS {
        FindNone(keys, k);
        return a;
      }
      id := Take(k, h);
      IdTaken(keys, a, b);
    }

    method Take(k: nat, h: nat) returns (id: Id)
      requires Valid() && Current() && k < 0x1_0000 && h < WR_SLOTS && nextId < WR_IDS
      requires slot[h] == 0 && k !in Keys() && Packed(slot[..], Hash(k), Dist(Hash(k), h))
      modifies this`nextId, this`pos, slot, key, table
      ensures Valid() && Current() && Keys() == old(Keys()) + [k] && id == WR_PURE_IDS + |old(Keys())|
    {
      hide Indexed, TableIs, EntryIs, Packed, Hash;
      ghost var keys, t := Keys(), table[..];
      Inserted(slot[..], keys, pos, k, Dist(Hash(k), h));
      id := nextId;
      nextId := nextId + 1;
      key[id] := k;
      assert Keys() == keys + [k];
      SetWord(id, k / 256, k % 256);
      TableAfter(t, sym[..], keys, k, table[..]);
      slot[h] := id + 1;
      pos := pos + [h];
    }

    /** A literal block: a header and each word's id, pairs getting ids as needed. */
    method PutLiteralBlock(px: seq<Byte>, start: nat, i: nat, out: array<Byte>, from: nat, max: nat)
      returns (ok: bool, n: nat)
      requires Valid() && Current() && start < i && 2 * i <= |px| && i - start < 0x8000 && from <= max <= out.Length
      modifies this`nextId, this`pos, slot, key, table, out
      ensures Valid() && Current() && Grows(old(Keys()), Keys()) && Drawn(old(Keys()), Keys(), px)
      ensures from <= n <= max && (ok ==> n == from + 2 + 2 * (i - start))
      ensures ok ==> AllSettled(Keys(), px, start, i)
                     && out[..n] == old(out[..from]) + Bytes(LITERAL + (i - start)) + LiteralBytes(IdsOf(Keys(), px, start, i))
      ensures !ok ==> max < from + 2 + 2 * (i - start)
    {
      hide Valid, Current, AllSettled, IdsOf, Bytes, LiteralBytes, Grows, Drawn;
      n := from;
      Few();
      NoneDrawn(Keys(), px);
      if n + 2 > max { return false, n; }
      ghost var head := out[..from] + Bytes(LITERAL + (i - start));
      PutToken(LITERAL + (i - start), out, n);
      n := n + 2;
      var k := start;
      NoIds(Keys(), px, start);
      assert head + [] == head;
      while k < i
        invariant start <= k <= i && n == from + 2 + 2 * (k - start) <= max
        invariant Valid() && Current() && Grows(old(Keys()), Keys()) && Drawn(old(Keys()), Keys(), px)
        invariant AllSettled(Keys(), px, start, k)
        invariant out[..n] == head + LiteralBytes(IdsOf(Keys(), px, start, k))
      {
        ghost var keys := Keys();
        ok := PutLiteral(px, start, k, out, n, max, head);
        GrowsOn(old(Keys()), keys, Keys());
        DrawnOn(old(Keys()), keys, Keys(), px);
        if !ok { return; }
        n, k := n + 2, k + 1;
      }
      ok := true;
    }

    /** One word of a literal block, if there is room for it. */
    method PutLiteral(px: seq<Byte>, start: nat, k: nat, out: array<Byte>, n: nat, max: nat, ghost head: seq<Byte>)
      returns (ok: bool)
      requires Valid() && Current() && start <= k && 2 * (k + 1) <= |px| && n <= max <= out.Length
      requires AllSettled(Keys(), px, start, k) && out[..n] == head + LiteralBytes(IdsOf(Keys(), px, start, k))
      modifies this`nextId, this`pos, slot, key, table, out
      ensures Valid() && Current() && Grows(old(Keys()), Keys()) && Drawn(old(Keys()), Keys(), px)
      ensures ok == (n + 2 <= max)
      ensures ok ==> AllSettled(Keys(), px, start, k + 1)
                     && out[..n + 2] == head + LiteralBytes(IdsOf(Keys(), px, start, k + 1))
    {
      hide Valid, Current, AllSettled, Settled, IdsOf, IdFor, Bytes, LiteralBytes, LiteralToken, Drawn;
      ghost var keys, sofar := Keys(), out[..n];
      var id := PairId(Left(px, k), Right(px, k));
      PairDrawn(keys, Keys(), px, k);
      if n + 2 > max { return false; }
      PutToken(LiteralToken(id), out, n);
      OneMore(keys, Keys(), px, start, k, id);
      Regroup(head, LiteralBytes(IdsOf(keys, px, start, k)), Bytes(LiteralToken(id)));
      return true;
    }

    /** One literal block or, for a single word, one run token. */
    method PutLiteralWords(px: seq<Byte>, start: nat, i: nat, out: array<Byte>, from: nat, max: nat)
      returns (ok: bool, n: nat)
      requires Valid() && Current() && start < i && 2 * i <= |px| && i < 0x8000 && from <= max <= out.Length
      requires Encoded(out[..from], Keys(), px, start)
      modifies this`nextId, this`pos, slot, key, table, out
      ensures Valid() && Current() && Grows(old(Keys()), Keys()) && Drawn(old(Keys()), Keys(), px)
      ensures from <= n <= max && (ok ==> n == from + BlockSize(i - start))
      ensures ok ==> Encoded(out[..n], Keys(), px, i)
      ensures !ok ==> max < from + BlockSize(i - start)
    {
      hide Indexed, TableIs, Encoded, Grows, Drawn;
      if i - start == 1 {
        ok, n := PutSingle(px, start, out, from, max);
        return;
      }
      ghost var keys, sofar := Keys(), out[..from];
      ok, n := PutLiteralBlock(px, start, i, out, from, max);
      if ok { BlockEncoded(sofar, keys, Keys(), px, start, i, out[..n]); }
    }

    method PutSingle(px: seq<Byte>, i: nat, out: array<Byte>, from: nat, max: nat) returns (ok: bool, n: nat)
      requires Valid() && Current() && 2 * (i + 1) <= |px| && from <= max <= out.Length
      requires Encoded(out[..from], Keys(), px, i)
      modifies this`nextId, this`pos, slot, key, table, out
      ensures Valid() && Current() && Grows(old(Keys()), Keys()) && Drawn(old(Keys()), Keys(), px)
      ensures from <= n <= max && (ok ==> n == from + 2)
      ensures ok ==> Encoded(out[..n], Keys(), px, i + 1)
      ensures !ok ==> max < from + 2
    {
      hide Indexed, TableIs, Settled, IdFor, Bytes, Encoded, IdsOf, Grows, Decode, Drawn;
      ghost var keys, sofar := Keys(), out[..from];
      var id := PairId(Left(px, i), Right(px, i));
      PairDrawn(keys, Keys(), px, i);
      if from + 2 > max { return false, from; }
      PutToken(id, out, from);
      RunToken(id, 1);
      OneId(Keys(), px, i);
      EncodedMore(sofar, keys, Keys(), px, i, i + 1, Bytes(id));
      return true, from + 2;
    }

    /** A long run of one colour. */
    method PutLongRun(px: seq<Byte>, i: nat, j: nat, out: array<Byte>, from: nat, max: nat) returns (ok: bool, n: nat)
      requires Valid() && i < j && 2 * j <= |px| && Plain(px, i, j) && from <= max <= out.Length
      requires Encoded(out[..from], Keys(), px, i)
      modifies out
      ensures Valid() && from <= n <= max && (ok ==> n == from + 2 * ((j - i + 63) / 64))
      ensures ok ==> Encoded(out[..n], Keys(), px, j)
      ensures !ok ==> max < from + 2 * ((j - i + 63) / 64)
    {
      hide Indexed, IdsOf, Encoded, Plain;
      KeysFew(slot[..], Keys(), pos);
      ghost var sofar := out[..from];
      ghost var more;
      ok, n, more := PutRunTokens(Left(px, i), j - i, out, from, max);
      if ok {
        PlainIds(Keys(), px, i, j);
        EncodedMore(sofar, Keys(), Keys(), px, i, j, more);
      }
    }

    lemma CountIs()
      requires Valid()
      ensures |Keys()| == nextId - WR_PURE_IDS
    {
    }

    lemma Few()
      requires Valid()
      ensures |Keys()| <= FREE_IDS && Grows(Keys(), Keys())
    {
    }

    /** wr_line_from_pixels: tokens that decode to exactly the line's words, each its pixels' id. They
        take Size bytes, and the answer is 0 exactly when that is more than max or there is no word. */
    method LineFromPixels(px: seq<Byte>, out: array<Byte>, max: nat) returns (n: nat)
      requires Valid() && Current() && |px| < 0x1_0000 && max <= out.Length
      modifies this`nextId, this`pos, slot, key, table, out
      ensures Valid() && Current() && Grows(old(Keys()), Keys()) && Drawn(old(Keys()), Keys(), px)
      ensures n == if Size(px, 0, |px| / 2) <= max then Size(px, 0, |px| / 2) else 0
      ensures n > 0 ==> Encoded(out[..n], Keys(), px, |px| / 2)
    {
      hide Valid, Current, Keys, IdsOf, Encoded, Plain, LongRun, Size, NextLong, BlockSize, Drawn, Grows;
      var words := |px| / 2;
      var i := 0;
      n := 0;
      Few();
      NoneDrawn(Keys(), px);
      EncodedNone(Keys(), px);
      while i < words
        invariant 0 <= i <= words && n <= max
        invariant n + Size(px, i, words) == Size(px, 0, words)
        invariant Valid() && Current() && Grows(old(Keys()), Keys()) && Drawn(old(Keys()), Keys(), px)
        invariant Encoded(out[..n], Keys(), px, i)
      {
        var j := i;
        if Left(px, i) == Right(px, i) { j := PlainRun(px, i, words, words); }
        LongRunIs(px, i, words, j);
        SizeSplit(px, i, j, words);
        var ok;
        if j - i >= WR_RUN_MIN {
          ok, n := PutLongRun(px, i, j, out, n, max);
          if !ok { return 0; }
        } else {
          j := LiteralEnd(px, i, words);
          ghost var keys := Keys();
          ok, n := PutLiteralWords(px, i, j, out, n, max);
          GrowsOn(old(Keys()), keys, Keys());
          DrawnOn(old(Keys()), keys, Keys(), px);
          if !ok { return 0; }
        }
        i := j;
      }
      NoSize(px, words);
    }
  }

  lemma NoSize(px: seq<Byte>, words: nat)
    requires 2 * words <= |px|
    ensures Size(px, words, words) == 0
  {
  }

  /** What the line still takes, from a long run or from a block of other words on. */
  lemma {:induction false} SizeSplit(px: seq<Byte>, i: nat, j: nat, words: nat)
    requires i < words && 2 * words <= |px| && i <= j <= words && (LongRun(px, i, words) <==> j - i >= WR_RUN_MIN)
    requires j > i ==> Plain(px, i, j) && (j < words ==> Left(px, j) != Left(px, i) || Right(px, j) != Left(px, i))
    ensures j - i >= WR_RUN_MIN ==> Size(px, i, words) == 2 * ((j - i + 63) / 64) + Size(px, j, words)
    ensures j - i < WR_RUN_MIN ==>
              var e := NextLong(px, i, words); i < e && Size(px, i, words) == BlockSize(e - i) + Size(px, e, words)
  {
    hide Plain, LongRun, BlockSize, RunEnd;
    if j - i >= WR_RUN_MIN { RunSize(px, i, j, words); }
  }

  /** The bytes decode to the ids of the first i words, and those ids will not change. */
  ghost predicate Encoded(bytes: seq<Byte>, keys: seq<nat>, px: seq<Byte>, i: nat) {
    2 * i <= |px| && Decode(bytes) == Some(IdsOf(keys, px, 0, i)) && AllSettled(keys, px, 0, i)
  }

  lemma {:induction false} EncodedNone(keys: seq<nat>, px: seq<Byte>)
    ensures Encoded([], keys, px, 0)
  {
  }

  lemma {:induction false} EncodedMore(bytes: seq<Byte>, keys: seq<nat>, keys': seq<nat>, px: seq<Byte>, i: nat, j: nat,
                                       more: seq<Byte>)
    requires Encoded(bytes, keys, px, i) && i <= j && 2 * j <= |px| && Grows(keys, keys')
    requires Decode(more) == Some(IdsOf(keys', px, i, j)) && AllSettled(keys', px, i, j)
    ensures Encoded(bytes + more, keys', px, j)
  {
    hide IdsOf, AllSettled, Decode, Grows;
    IdsStay(keys, keys', px, 0, i);
    IdsJoin(keys', px, 0, i, j);
    DecodeAppend(bytes, more);
  }

  lemma {:induction false} BlockEncoded(bytes: seq<Byte>, keys: seq<nat>, keys': seq<nat>, px: seq<Byte>, i: nat, j: nat,
                                        bytes': seq<Byte>)
    requires Encoded(bytes, keys, px, i) && i <= j && 2 * j <= |px| && j - i < 0x8000 && Grows(keys, keys')
    requires AllSettled(keys', px, i, j)
    requires bytes' == bytes + Bytes(LITERAL + (j - i)) + LiteralBytes(IdsOf(keys', px, i, j))
    ensures Encoded(bytes', keys', px, j)
  {
    hide Encoded, Grows, AllSettled, Bytes, LiteralBytes, IdsOf, Decode;
    var ids := IdsOf(keys', px, i, j);
    LiteralBlock(ids);
    var more := Bytes(LITERAL + |ids|) + LiteralBytes(ids);
    assert bytes' == bytes + more;
    EncodedMore(bytes, keys, keys', px, i, j, more);
  }

  lemma {:induction false} OneId(keys: seq<nat>, px: seq<Byte>, i: nat)
    requires 2 * (i + 1) <= |px|
    ensures IdsOf(keys, px, i, i + 1) == Repeat<Id>(IdFor(keys, Left(px, i), Right(px, i)), 1)
    ensures AllSettled(keys, px, i, i + 1) == Settled(keys, Left(px, i), Right(px, i))
  {
    hide IdFor, Settled;
  }

  /** A long run starts at i exactly when the plain run there is long enough. */
  lemma {:induction false} LongRunIs(px: seq<Byte>, i: nat, words: nat, j: nat)
    requires i < words && 2 * words <= |px| && i <= j <= words
    requires j == i ==> Left(px, i) != Right(px, i)
    requires j > i ==> Plain(px, i, j) && (j < words ==> j - i >= words || Left(px, j) != Left(px, i) || Right(px, j) != Left(px, i))
    ensures LongRun(px, i, words) <==> j - i >= WR_RUN_MIN
  {
    assert i + WR_RUN_MIN <= words && Plain(px, i, i + WR_RUN_MIN)
           ==> forall k: nat :: i <= k < i + WR_RUN_MIN ==> Left(px, k) == Left(px, i) && Right(px, k) == Left(px, i);
  }

  lemma {:induction false} NoIds(keys: seq<nat>, px: seq<Byte>, i: nat)
    requires 2 * i <= |px|
    ensures IdsOf(keys, px, i, i) == [] && AllSettled(keys, px, i, i)
    ensures LiteralBytes(IdsOf(keys, px, i, i)) == []
  {
  }

  lemma {:induction false} GrowsOn(a: seq<nat>, b: seq<nat>, c: seq<nat>)
    requires Grows(a, b) && Grows(b, c)
    ensures Grows(a, c)
  {
  }

  lemma Regroup(a: seq<Byte>, b: seq<Byte>, c: seq<Byte>)
    ensures a + b + c == a + (b + c)
  {
  }

  lemma {:induction false} OneMore(keys: seq<nat>, keys': seq<nat>, px: seq<Byte>, i: nat, k: nat, id: Id)
    requires i <= k && 2 * (k + 1) <= |px| && Grows(keys, keys') && AllSettled(keys, px, i, k)
    requires id == IdFor(keys', Left(px, k), Right(px, k)) && Settled(keys', Left(px, k), Right(px, k))
    ensures AllSettled(keys', px, i, k + 1)
    ensures IdsOf(keys', px, i, k + 1) == IdsOf(keys, px, i, k) + [id]
    ensures LiteralBytes(IdsOf(keys', px, i, k + 1)) == LiteralBytes(IdsOf(keys, px, i, k)) + Bytes(LiteralToken(id))
  {
    hide IdFor, Settled, Grows, Bytes, LiteralToken;
    IdsStay(keys, keys', px, i, k);
    var ids := IdsOf(keys', px, i, k + 1);
    assert ids[..|ids| - 1] == IdsOf(keys', px, i, k);
  }

  lemma {:induction false} KeysFew(slot: seq<nat>, keys: seq<nat>, pos: seq<nat>)
    requires Indexed(slot, keys, pos)
    ensures |keys| <= FREE_IDS && Grows(keys, keys)
  {
  }

  lemma {:induction false} IdFound(slot: seq<nat>, keys: seq<nat>, pos: seq<nat>, h: nat, a: Byte, b: Byte)
    requires Indexed(slot, keys, pos) && h < WR_SLOTS && slot[h] != 0 && KeyAt(slot, keys, h) == Key(a, b) && a != b
    ensures slot[h] - 1 == IdFor(keys, a, b) && Settled(keys, a, b)
  {
    var i := slot[h] - WR_PURE_IDS - 1;
    assert keys[i] == Key(a, b);
    FindIn(keys, Key(a, b));
  }

  lemma {:induction false} FindNone(keys: seq<nat>, k: nat)
    requires k !in keys
    ensures Find(keys, k) == |keys|
  {
  }

  lemma {:induction false} IdTaken(keys: seq<nat>, a: Byte, b: Byte)
    requires Key(a, b) !in keys && |keys| < FREE_IDS && a != b
    ensures IdFor(keys + [Key(a, b)], a, b) == WR_PURE_IDS + |keys|
    ensures Settled(keys + [Key(a, b)], a, b) && Grows(keys, keys + [Key(a, b)])
  {
    var keys' := keys + [Key(a, b)];
    assert keys'[|keys|] == Key(a, b);
    FindIn(keys', Key(a, b));
  }

  lemma {:induction false} PassedNone(slot: seq<nat>, keys: seq<nat>, home: nat, k: nat)
    requires |slot| == WR_SLOTS && home < WR_SLOTS
    ensures Passed(slot, keys, home, k, 0) && At(home, 0) == home
  {
  }

  lemma {:induction false} PassedPacked(slot: seq<nat>, keys: seq<nat>, home: nat, k: nat, d: nat)
    requires |slot| == WR_SLOTS && home < WR_SLOTS && Passed(slot, keys, home, k, d)
    ensures Packed(slot, home, d)
  {
  }

  lemma {:induction false} AllBlack(table: seq<Word>, sym: seq<Symbol>, black: Symbol, keys: seq<nat>)
    requires |table| == 4 * WR_IDS && |sym| == 768 && keys == []
    requires forall i :: 0 <= i < |table| ==> table[i] == if i % 4 == 3 then 0 else Join(black, black)
    requires forall i :: 0 <= i < 768 ==> sym[i] == black
    ensures TableIs(table, sym, keys)
  {
    hide Join;
    forall id: Id | id < WR_PURE_IDS ensures EntryIs(table, sym, id, id, id) {
      var e := Entry(id);
      assert e % 4 == 0 && (e + 1) % 4 == 1 && (e + 2) % 4 == 2;
    }
  }

  lemma {:induction false} TableFewer(table: seq<Word>, sym: seq<Symbol>, keys: seq<nat>, none: seq<nat>)
    requires TableIs(table, sym, keys) && none == []
    ensures TableIs(table, sym, none)
  {
    hide EntryIs;
    forall id: Id | id < WR_PURE_IDS ensures EntryIs(table, sym, id, LeftOf(none, id), RightOf(none, id)) {
      assert EntryIs(table, sym, id, LeftOf(keys, id), RightOf(keys, id));
    }
  }

  // ---- the two halves together ---------------------------------------------------------------

  /** Two pairs with ids of their own never share one. */
  lemma {:induction false} IdsDiffer(keys: seq<nat>, a: Byte, b: Byte, c: Byte, d: Byte)
    requires |keys| <= FREE_IDS
    requires a != b && c != d && Key(a, b) in keys && Key(c, d) in keys
    requires IdFor(keys, a, b) == IdFor(keys, c, d)
    ensures a == c && b == d
  {
    FindIn(keys, Key(a, b));
    FindIn(keys, Key(c, d));
  }

  /** The right pixel of a word as the expander shows it: its own, or the left one's again when the
      pair has no id. */
  ghost function ShownRight(keys: seq<nat>, a: Byte, b: Byte): Byte {
    if a == b || Key(a, b) in keys then b else a
  }

  lemma {:induction false} IdShows(table: seq<Word>, sym: seq<Symbol>, keys: seq<nat>, a: Byte, b: Byte)
    requires TableIs(table, sym, keys) && |keys| <= FREE_IDS
    ensures EntryIs(table, sym, IdFor(keys, a, b), a, ShownRight(keys, a, b))
  {
    hide EntryIs;
    var id := IdFor(keys, a, b);
    if Key(a, b) in keys { FindIn(keys, Key(a, b)); } else { FindNone(keys, Key(a, b)); }
    assert EntryIs(table, sym, id, LeftOf(keys, id), RightOf(keys, id));
  }

  /** Every word of every lane holds the symbols of its two pixels; only a pair first met once all 256
      pair ids were taken shows its left pixel twice. */
  lemma {:induction false} CodecShows(px: seq<Byte>, tok: seq<Byte>, table: seq<Word>, sym: seq<Symbol>, keys: seq<nat>,
                                      out: seq<Word>, i: nat)
    requires TableIs(table, sym, keys) && |keys| <= FREE_IDS && Encoded(tok, keys, px, |px| / 2)
    requires Shows(out, |px| / 2, table, Line(tok, |px| / 2), |px| / 2) && i < |px| / 2
    ensures |out| == 3 * (|px| / 2) && |sym| == 768
    ensures var a, b := Left(px, i), ShownRight(keys, Left(px, i), Right(px, i));
            && out[i] == WordOf(sym, 0, a, b)
            && out[|px| / 2 + i] == WordOf(sym, 1, a, b)
            && out[2 * (|px| / 2) + i] == WordOf(sym, 2, a, b)
    ensures ShownRight(keys, Left(px, i), Right(px, i)) == Right(px, i) || |keys| == FREE_IDS
    ensures Left(px, i) == px[2 * i] && Right(px, i) == px[2 * i + 1]
  {
    hide Line, Decode, IdFor, WordOf, TableIs;
    var stride := |px| / 2;
    LineOfDecoded(tok, stride);
    var ids := IdsOf(keys, px, 0, stride);
    FitExact(ids, stride);
    assert Cell(out, stride, table, i, ids[i]);
    IdShows(table, sym, keys, Left(px, i), Right(px, i));
  }

  lemma {:induction false} FitExact(ids: seq<Id>, room: nat)
    requires |ids| == room
    ensures Fit(ids, room) == ids
  {
  }
}
