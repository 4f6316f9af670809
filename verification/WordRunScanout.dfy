/** The RP2040's scanout (scanout.c): the palette is uploaded before lines that use it are packed, and
    the pairs of colours are forgotten when the palette's entries come to mean other colours. A line
    packed from a palette shows that palette's colours for as long as the pairs are kept. */
module WordRunScanout {
  import opened Prelude
  import opened WordRun
  import opened WordRunPairs
  import opened WordRunEncode
  import opened WordRunExpand
  import opened Palette
  import H = HstxColours
  import L = TmdsLevels

  ghost predicate EntryColoured(sym: seq<Symbol>, c: Colour, i: nat)
    requires |sym| == 768 && i < 256
  {
    && sym[i] == L.LevelSymbol(Channel(c, 0))
    && sym[256 + i] == L.LevelSymbol(Channel(c, 1))
    && sym[512 + i] == L.LevelSymbol(Channel(c, 2))
  }

  /** The encoder's symbols of the first colours are those of the palette's entries. */
  ghost predicate Coloured(sym: seq<Symbol>, rgb: seq<Colour>) {
    |sym| == 768 && |rgb| <= 256 && forall i :: 0 <= i < |rgb| ==> EntryColoured(sym, rgb[i], i)
  }

  lemma {:induction false} ColouredMore(sym: seq<Symbol>, sym': seq<Symbol>, rgb: seq<Colour>, c: Colour)
    requires Coloured(sym, rgb) && |rgb| < 256 && |sym'| == 768
    requires forall i :: 0 <= i < 768 && i % 256 != |rgb| ==> sym'[i] == sym[i]
    requires EntryColoured(sym', c, |rgb|)
    ensures Coloured(sym', rgb + [c])
  {
    hide L.LevelSymbol;
    forall i | 0 <= i <= |rgb| ensures EntryColoured(sym', (rgb + [c])[i], i) {
      if i < |rgb| { assert EntryColoured(sym, rgb[i], i); }
    }
  }

  lemma Channels(c: Colour)
    ensures c % 256 == Channel(c, 0) && c / 256 % 256 == Channel(c, 1) && c / 0x1_0000 % 256 == Channel(c, 2)
  {
  }

  /** What the scanout remembers of the palette: its generation tells of resets, and without one the
      entries uploaded are still those of the palette. */
  ghost predicate Following(sym: seq<Symbol>, p: H.Pal, uploaded: nat, generation: nat, resets: nat) {
    && H.PalOk(p) && uploaded <= PALETTE_SIZE && generation < 0x1_0000
    && p.gen == (generation + resets) % 0x1_0000
    && if resets > 0 then p.dirty == 0 else p.dirty == uploaded && Coloured(sym, p.rgb[..uploaded])
  }

  /** Colours lo to n were set anew, their plain words with them, and nothing else was touched. */
  ghost predicate Recoloured(t: seq<Word>, y: seq<Symbol>, t': seq<Word>, y': seq<Symbol>, lo: nat, n: nat) {
    && |t'| == |t| == 4 * WR_IDS && |y'| == |y| == 768 && lo <= n <= 256
    && (forall i :: 0 <= i < 768 && !(lo <= i % 256 < n) ==> y'[i] == y[i])
    && (forall i :: 0 <= i < |t| && !(lo <= i / 4 < n) ==> t'[i] == t[i])
    && (forall id: Id :: lo <= id < n ==> EntryIs(t', y', id, id, id))
  }

  lemma {:induction false} RecolouredMore(t: seq<Word>, y: seq<Symbol>, t': seq<Word>, y': seq<Symbol>, t2: seq<Word>, y2: seq<Symbol>,
                                          lo: nat, n: Id)
    requires Recoloured(t, y, t', y', lo, n) && n < 256 && |t2| == |t| && |y2| == |y|
    requires forall i :: 0 <= i < 768 && i % 256 != n ==> y2[i] == y'[i]
    requires forall i :: 0 <= i < |t| && i / 4 != n ==> t2[i] == t'[i]
    requires EntryIs(t2, y2, n, n, n)
    ensures Recoloured(t, y, t2, y2, lo, n + 1)
  {
    hide Join;
    forall id: Id | lo <= id < n + 1 ensures EntryIs(t2, y2, id, id, id) {
      if id < n { assert EntryIs(t', y', id, id, id); }
    }
  }

  lemma NoneRecoloured(t: seq<Word>, y: seq<Symbol>, lo: nat)
    requires |t| == 4 * WR_IDS && |y| == 768 && lo <= 256
    ensures Recoloured(t, y, t, y, lo, lo)
  {
  }

  /** What the entry now says is what the encoder had for it before. */
  ghost predicate SameAt(y: seq<Symbol>, rgb: seq<Colour>, c: nat)
    requires |y| == 768 && c < 256
  {
    c < |rgb| ==> EntryColoured(y, rgb[c], c)
  }

  /** No pair uses an entry whose colour changed. */
  ghost predicate PairsAgree(y: seq<Symbol>, rgb: seq<Colour>, keys: seq<nat>) {
    |y| == 768 && forall i :: 0 <= i < |keys| ==> keys[i] < 0x1_0000 && SameAt(y, rgb, keys[i] / 256) && SameAt(y, rgb, keys[i] % 256)
  }

  lemma JoinApart(a: Symbol, b: Symbol, c: Symbol, d: Symbol)
    ensures Join(a, b) == Join(c, d) <==> a == c && b == d
  {
  }

  ghost predicate SameSymbols(y: seq<Symbol>, y': seq<Symbol>, c: nat)
    requires |y| == |y'| == 768 && c < 256
  {
    y'[c] == y[c] && y'[256 + c] == y[256 + c] && y'[512 + c] == y[512 + c]
  }

  lemma {:induction false} WordsApart(y: seq<Symbol>, y': seq<Symbol>, a: nat, b: nat)
    requires |y| == |y'| == 768 && a < 256 && b < 256
    ensures WordOf(y', 0, a, b) == WordOf(y, 0, a, b) && WordOf(y', 1, a, b) == WordOf(y, 1, a, b)
              && WordOf(y', 2, a, b) == WordOf(y, 2, a, b)
            <==> SameSymbols(y, y', a) && SameSymbols(y, y', b)
  {
    hide Join;
    JoinApart(y[a], y[b], y'[a], y'[b]);
    JoinApart(y[256 + a], y[256 + b], y'[256 + a], y'[256 + b]);
    JoinApart(y[512 + a], y[512 + b], y'[512 + a], y'[512 + b]);
  }

  lemma {:induction false} SameIs(y: seq<Symbol>, y': seq<Symbol>, rgb: seq<Colour>, c: nat)
    requires |y| == |y'| == 768 && c < 256 && Coloured(y', rgb)
    requires forall i :: 0 <= i < 768 && i % 256 >= |rgb| ==> y'[i] == y[i]
    ensures SameAt(y, rgb, c) <==> SameSymbols(y, y', c)
  {
    hide L.LevelSymbol;
    if c < |rgb| { assert EntryColoured(y', rgb[c], c); }
  }

  lemma {:induction false} EntryStays(t: seq<Word>, y: seq<Symbol>, t': seq<Word>, y': seq<Symbol>, rgb: seq<Colour>, id: Id, a: nat, b: nat)
    requires Recoloured(t, y, t', y', 0, |rgb|) && Coloured(y', rgb) && id >= WR_PURE_IDS && EntryIs(t, y, id, a, b)
    ensures EntryIs(t', y', id, a, b) <==> SameAt(y, rgb, a) && SameAt(y, rgb, b)
  {
    hide WordOf, SameAt, Coloured, SameSymbols;
    WordsApart(y, y', a, b);
    SameIs(y, y', rgb, a);
    SameIs(y, y', rgb, b);
  }

  /** After an upload over all entries the table is right if and only if no pair uses a changed one. */
  lemma {:induction false} CurrentIff(t: seq<Word>, y: seq<Symbol>, keys: seq<nat>, t': seq<Word>, y': seq<Symbol>, rgb: seq<Colour>)
    requires TableIs(t, y, keys) && |keys| <= FREE_IDS && Recoloured(t, y, t', y', 0, |rgb|) && Coloured(y', rgb)
    ensures TableIs(t', y', keys) <==> PairsAgree(y, rgb, keys)
  {
    hide Recoloured, Coloured, EntryIs, SameAt;
    assert |y| == 768 by { RecolouredSizes(t, y, t', y', rgb); }
    forall i | 0 <= i < |keys|
      ensures EntryIs(t', y', WR_PURE_IDS + i, keys[i] / 256, keys[i] % 256)
              <==> SameAt(y, rgb, keys[i] / 256) && SameAt(y, rgb, keys[i] % 256)
    {
      PairEntry(t, y, keys, i);
      EntryStays(t, y, t', y', rgb, WR_PURE_IDS + i, keys[i] / 256, keys[i] % 256);
    }
    forall id: Id | id < WR_PURE_IDS ensures EntryIs(t', y', id, id, id) {
      assert EntryIs(t, y, id, LeftOf(keys, id), RightOf(keys, id));
      PlainStays(t, y, t', y', rgb, id);
    }
    if TableIs(t', y', keys) {
      forall i | 0 <= i < |keys| ensures EntryIs(t', y', WR_PURE_IDS + i, keys[i] / 256, keys[i] % 256) {
        PairEntry(t', y', keys, i);
      }
    }
    if PairsAgree(y, rgb, keys) {
      forall id: Id | id < WR_PURE_IDS + |keys| ensures EntryIs(t', y', id, LeftOf(keys, id), RightOf(keys, id)) {
        if id >= WR_PURE_IDS { assert WR_PURE_IDS + (id - WR_PURE_IDS) == id; }
      }
    }
  }

  lemma {:induction false} PairEntry(t: seq<Word>, y: seq<Symbol>, keys: seq<nat>, i: nat)
    requires TableIs(t, y, keys) && i < |keys| <= FREE_IDS
    ensures EntryIs(t, y, WR_PURE_IDS + i, keys[i] / 256, keys[i] % 256)
  {
    hide EntryIs;
    var id: Id := WR_PURE_IDS + i;
    assert EntryIs(t, y, id, LeftOf(keys, id), RightOf(keys, id));
  }

  lemma RecolouredSizes(t: seq<Word>, y: seq<Symbol>, t': seq<Word>, y': seq<Symbol>, rgb: seq<Colour>)
    requires Recoloured(t, y, t', y', 0, |rgb|)
    ensures |y| == |y'| == 768
  {
  }

  lemma {:induction false} PlainStays(t: seq<Word>, y: seq<Symbol>, t': seq<Word>, y': seq<Symbol>, rgb: seq<Colour>, id: Id)
    requires Recoloured(t, y, t', y', 0, |rgb|) && id < WR_PURE_IDS && EntryIs(t, y, id, id, id)
    ensures EntryIs(t', y', id, id, id)
  {
    hide Join;
  }

  lemma NoPairs(n: nat)
    ensures PairsBelow([], n)
  {
  }

  lemma MorePairs(keys: seq<nat>, n: nat, m: nat)
    requires PairsBelow(keys, n) && n <= m
    ensures PairsBelow(keys, m)
  {
  }

  lemma Untouched(keys: seq<nat>, n: nat, i: Byte)
    requires n <= i
    ensures PairsBelow(keys, n) ==> Unpaired(keys, i)
  {
  }

  lemma NoneColoured(sym: seq<Symbol>)
    requires |sym| == 768
    ensures Coloured(sym, [])
  {
  }

  lemma {:induction false} FollowsMore(sym: seq<Symbol>, p: H.Pal, uploaded: nat, generation: nat, resets: nat, c: Colour)
    requires Following(sym, p, uploaded, generation, resets) && |p.rgb| < PALETTE_SIZE
    ensures Following(sym, p.(rgb := p.rgb + [c]), uploaded, generation, resets)
  {
    hide Coloured;
    assert (p.rgb + [c])[..p.dirty] == p.rgb[..p.dirty];
  }

  lemma {:induction false} FollowsReset(sym: seq<Symbol>, p: H.Pal, uploaded: nat, generation: nat, resets: nat)
    requires Following(sym, p, uploaded, generation, resets)
    ensures Following(sym, H.Pal([], 0, (p.gen + 1) % 0x1_0000), uploaded, generation, resets + 1)
  {
    hide Coloured;
  }

  class Scanout {
    const enc: Encoder
    // the palette the decoder and the renderer add to
    var pal: H.Pal
    var uploaded: nat
    var generation: nat
    var bound: bool
    /** Palette resets since the last upload. */
    ghost var resets: nat

    ghost predicate Valid()
      reads this, enc, enc.table, enc.sym, enc.slot, enc.key
    {
      && enc.Valid() && enc.Current() && PairsBelow(enc.Keys(), uploaded)
      && Following(enc.sym[..], pal, uploaded, generation, resets) && (resets == 0 ==> bound)
    }

    constructor ()
      ensures Valid() && fresh(enc) && fresh(enc.table) && fresh(enc.sym) && fresh(enc.slot) && fresh(enc.key)
      ensures pal == H.Pal([], 0, 1) && !bound
    {
      hide L.LevelSymbol, Encoder.Valid, Encoder.Current;
      enc := new Encoder();
      pal, uploaded, generation, bound, resets := H.Pal([], 0, 1), 0, 0, false, 1;
    }

    /** palette_add, when the colour is new. */
    method AddEntry(c: Colour)
      requires Valid() && |pal.rgb| < PALETTE_SIZE
      modifies this`pal
      ensures Valid() && pal == old(pal).(rgb := old(pal).rgb + [c])
    {
      hide Following, PairsBelow, Encoder.Valid, Encoder.Current, Encoder.Keys;
      FollowsMore(enc.sym[..], pal, uploaded, generation, resets, c);
      pal := pal.(rgb := pal.rgb + [c]);
    }

    /** palette_reset. */
    method ResetPalette()
      requires Valid()
      modifies this`pal, this`resets
      ensures Valid() && pal == H.Pal([], 0, (old(pal).gen + 1) % 0x1_0000) && resets == old(resets) + 1
    {
      hide Following, PairsBelow, Encoder.Valid, Encoder.Current, Encoder.Keys;
      FollowsReset(enc.sym[..], pal, uploaded, generation, resets);
      pal, resets := H.Pal([], 0, (pal.gen + 1) % 0x1_0000), resets + 1;
    }

    /** scanout_frame_begin: the new frame has at least half of the pair ids to give out. */
    method FrameBegin()
      requires Valid()
      modifies enc`nextId, enc`pos, enc.slot
      ensures Valid() && |enc.Keys()| <= FREE_IDS / 2
      ensures enc.Keys() == if |old(enc.Keys())| > FREE_IDS / 2 then [] else old(enc.Keys())
    {
      hide Following, PairsBelow, Encoder.Valid, Encoder.Current, Encoder.Keys;
      enc.CountIs();
      if enc.nextId - WR_PURE_IDS > (WR_IDS - WR_PURE_IDS) / 2 {
        enc.ResetPairs();
        NoPairs(uploaded);
      }
    }

    /** The next upload finds out that entries mean other colours, or none that matter do. */
    ghost predicate Told()
      reads this`pal, this`uploaded, this`resets, enc`nextId, enc.key
    {
      H.Noticed(resets) || |pal.rgb| < uploaded || enc.Keys() == []
    }

    /** scanout_upload_palette: the symbols of every entry are those of its colour. The pairs' words are
        right afterwards if and only if the generation or the count tells of the resets, or no pair uses
        an entry whose colour changed. */
    method Upload()
      requires Valid()
      modifies this`pal, this`uploaded, this`generation, this`bound, this`resets, enc`nextId, enc`pos, enc.table, enc.sym, enc.slot
      ensures pal == old(pal).(dirty := |old(pal).rgb|) && bound && resets == 0 && uploaded == |pal.rgb|
      ensures Coloured(enc.sym[..], pal.rgb) && enc.Valid()
      ensures enc.Keys() == if |pal.rgb| < old(uploaded) || old(pal).gen != old(generation) then [] else old(enc.Keys())
      ensures old(Told()) ==> Valid()
      ensures enc.Current() <==> old(Told()) || PairsAgree(old(enc.sym[..]), pal.rgb, old(enc.Keys()))
    {
      hide Coloured, PairsBelow, PairsAgree, Recoloured, TableIs, Valid, Told, Encoder.Valid, Encoder.Current, Encoder.Keys;
      ghost var t, y, keys, told := enc.table[..], enc.sym[..], enc.Keys(), Told();
      DropStale();
      CurrentIs();
      SetEntries();
      CurrentIs();
      if !told { CurrentIff(t, y, keys, enc.table[..], enc.sym[..], pal.rgb); }
      pal := pal.(dirty := |pal.rgb|);
      uploaded, bound, resets := |pal.rgb|, true, 0;
      if told { Uploaded(); }
    }

    lemma Uploaded()
      requires enc.Valid() && enc.Current() && PairsBelow(enc.Keys(), uploaded) && H.PalOk(pal) && pal.gen == generation < 0x1_0000
      requires resets == 0 && bound && pal.dirty == uploaded == |pal.rgb| && Coloured(enc.sym[..], pal.rgb)
      ensures Valid()
    {
      hide Coloured, PairsBelow;
      assert pal.rgb[..uploaded] == pal.rgb;
    }

    /** The pairs are forgotten when the palette shrank or its generation moved. */
    method DropStale()
      requires Valid()
      modifies this`generation, enc`nextId, enc`pos, enc.slot
      ensures enc.Valid() && enc.Current() && PairsBelow(enc.Keys(), |pal.rgb|) && pal.gen == generation < 0x1_0000
      ensures enc.Keys() == if |pal.rgb| < uploaded || pal.gen != old(generation) then [] else old(enc.Keys())
      ensures if old(Told()) then PairsBelow(enc.Keys(), pal.dirty) else enc.Keys() == old(enc.Keys()) && pal.dirty == 0
      ensures H.PalOk(pal) && Coloured(enc.sym[..], pal.rgb[..pal.dirty])
    {
      hide Coloured, PairsBelow, H.Noticed, Encoder.Valid, Encoder.Current, Encoder.Keys;
      Stale();
      NoPairs(0);
      NoPairs(|pal.rgb|);
      NoneColoured(enc.sym[..]);
      assert resets > 0 ==> pal.rgb[..pal.dirty] == [];
      if |pal.rgb| < uploaded || pal.gen != generation {
        enc.ResetPairs();
        generation := pal.gen;
      } else {
        MorePairs(enc.Keys(), uploaded, |pal.rgb|);
      }
    }

    lemma CurrentIs()
      requires enc.Valid()
      ensures enc.Current() <==> TableIs(enc.table[..], enc.sym[..], enc.Keys())
      ensures |enc.Keys()| <= FREE_IDS
    {
      hide TableIs;
    }

    lemma Sizes()
      requires enc.Valid()
      ensures enc.sym.Length == 768 && enc.table.Length == 4 * WR_IDS
    {
    }

    /** What the generation says of the resets. */
    lemma Stale()
      requires Valid()
      ensures if resets > 0 && H.Noticed(resets) then pal.gen != generation else pal.gen == generation
      ensures pal.gen < 0x1_0000 && (resets == 0 ==> H.Noticed(resets))
      ensures enc.sym.Length == 768
    {
      hide Coloured, PairsBelow;
      H.Wraps(generation, resets);
    }

    method SetEntries()
      requires enc.Valid() && H.PalOk(pal) && Coloured(enc.sym[..], pal.rgb[..pal.dirty])
      modifies enc.table, enc.sym
      ensures enc.Valid() && enc.Keys() == old(enc.Keys()) && Coloured(enc.sym[..], pal.rgb)
      ensures old(enc.Current()) && PairsBelow(enc.Keys(), pal.dirty) ==> enc.Current()
      ensures Recoloured(old(enc.table[..]), old(enc.sym[..]), enc.table[..], enc.sym[..], pal.dirty, |pal.rgb|)
    {
      hide Coloured, PairsBelow, Recoloured, L.LevelSymbol, EntryIs, Encoder.Valid, Encoder.Current, Encoder.Keys;
      Sizes();
      NoneRecoloured(enc.table[..], enc.sym[..], pal.dirty);
      for i := pal.dirty to |pal.rgb|
        invariant enc.Valid() && enc.Keys() == old(enc.Keys()) && Coloured(enc.sym[..], pal.rgb[..i])
        invariant old(enc.Current()) && PairsBelow(enc.Keys(), pal.dirty) ==> enc.Current()
        invariant Recoloured(old(enc.table[..]), old(enc.sym[..]), enc.table[..], enc.sym[..], pal.dirty, i)
      {
        ghost var table, sym := enc.table[..], enc.sym[..];
        enc.SetColour(i, pal.rgb[i]);
        Channels(pal.rgb[i]);
        Untouched(enc.Keys(), pal.dirty, i);
        RecolouredMore(old(enc.table[..]), old(enc.sym[..]), table, sym, enc.table[..], enc.sym[..], pal.dirty, i);
        ColouredMore(sym, enc.sym[..], pal.rgb[..i], pal.rgb[i]);
        assert pal.rgb[..i] + [pal.rgb[i]] == pal.rgb[..i + 1];
      }
      assert pal.rgb[..|pal.rgb|] == pal.rgb;
    }

    /** scanout_encode_line, while rendering: entries added since the last upload are uploaded first, so
        the tokens decode to ids whose words have the palette's colours. */
    method EncodeLine(px: seq<Byte>, out: array<Byte>, max: nat) returns (n: nat)
      requires Valid() && resets == 0 && ColoursBelow(px, |pal.rgb|) && |px| < 0x1_0000 && max <= out.Length
      modifies this`pal, this`uploaded, this`generation, this`bound, this`resets
      modifies enc`nextId, enc`pos, enc.table, enc.sym, enc.slot, enc.key, out
      ensures Valid() && resets == 0 && pal == old(pal).(dirty := |old(pal).rgb|)
      ensures Coloured(enc.sym[..], pal.rgb) && Grows(old(enc.Keys()), enc.Keys())
      ensures n == if Size(px, 0, |px| / 2) <= max then Size(px, 0, |px| / 2) else 0
      ensures n > 0 ==> Encoded(out[..n], enc.Keys(), px, |px| / 2)
    {
      hide Coloured, PairsBelow, Encoded, Size, Encoder.Valid, Encoder.Current, Encoder.Keys;
      assert pal.rgb[..|pal.rgb|] == pal.rgb;
      if bound && pal.dirty < |pal.rgb| { Upload(); }
      n := enc.LineFromPixels(px, out, max);
    }
  }
  // ---- what a packed line shows --------------------------------------------------------------

  /** Later ids for the same words. */
  lemma {:induction false} LineStays(tok: seq<Byte>, keys: seq<nat>, keys': seq<nat>, px: seq<Byte>, words: nat)
    requires Encoded(tok, keys, px, words) && Grows(keys, keys')
    ensures Encoded(tok, keys', px, words)
  {
    hide Settled, IdFor, Grows, Decode;
    IdsStay(keys, keys', px, 0, words);
  }

  /** One lane's word of two pixels in the palette's colours. */
  /** A literal token is its entry's offset in bytes, so the expander need not look the id up. */
  lemma LiteralIsOffset(id: Id)
    ensures LiteralToken(id) == 4 * Entry(id)
  {
  }

  function WordFor(c: Colour, d: Colour, lane: nat): Word
    requires lane < 3
  {
    Join(L.LevelSymbol(Channel(c, lane)), L.LevelSymbol(Channel(d, lane)))
  }

  lemma {:induction false} ColourWord(sym: seq<Symbol>, rgb: seq<Colour>, a: nat, b: nat)
    requires Coloured(sym, rgb) && a < |rgb| && b < |rgb|
    ensures forall lane :: 0 <= lane < 3 ==> WordOf(sym, lane, a, b) == WordFor(rgb[a], rgb[b], lane)
  {
    hide L.LevelSymbol, Join;
    assert EntryColoured(sym, rgb[a], a) && EntryColoured(sym, rgb[b], b);
  }

  /** A line packed when the pairs were `keys` and the palette `rgb`, shown after both have grown: in every
      lane of every word the ten bits sent first are the level symbol of the left pixel's colour in that
      palette and the other ten the right pixel's; only a pair first met once all 256 ids were taken
      shows its left pixel twice. */
  lemma {:induction false} LineShows(px: seq<Byte>, tok: seq<Byte>, keys: seq<nat>, rgb: seq<Colour>, table: seq<Word>,
                                     sym: seq<Symbol>, keys': seq<nat>, rgb': seq<Colour>, out: seq<Word>, i: nat, lane: nat)
    requires Encoded(tok, keys, px, |px| / 2) && ColoursBelow(px, |rgb|) && lane < 3
    requires Grows(keys, keys') && rgb <= rgb' && TableIs(table, sym, keys') && Coloured(sym, rgb')
    requires Shows(out, |px| / 2, table, Line(tok, |px| / 2), |px| / 2) && i < |px| / 2
    ensures |out| == 3 * (|px| / 2) && px[2 * i] < |rgb| && px[2 * i + 1] < |rgb|
    ensures var (w, l, r) := (out[lane * (|px| / 2) + i], L.LevelSymbol(Channel(rgb[px[2 * i]], lane)), L.LevelSymbol(Channel(rgb[px[2 * i + 1]], lane)));
            && w % 1024 == l
            && (w / 1024 == r || (w / 1024 == l && |keys'| == FREE_IDS && Key(px[2 * i], px[2 * i + 1]) !in keys'))
  {
    hide Encoded, TableIs, Coloured, Shows, Line, WordFor, L.LevelSymbol, Channel;
    LineStays(tok, keys, keys', px, |px| / 2);
    CodecShows(px, tok, table, sym, keys', out, i);
    var a, b := px[2 * i], ShownRight(keys', px[2 * i], px[2 * i + 1]);
    ColourWord(sym, rgb', a, b);
    WordParts(rgb[a], rgb[b], lane);
  }

  lemma WordParts(c: Colour, d: Colour, lane: nat)
    requires lane < 3
    ensures WordFor(c, d, lane) % 1024 == L.LevelSymbol(Channel(c, lane)) && WordFor(c, d, lane) / 1024 == L.LevelSymbol(Channel(d, lane))
  {
    hide L.LevelSymbol, Channel, Join;
    JoinParts(L.LevelSymbol(Channel(c, lane)), L.LevelSymbol(Channel(d, lane)));
  }
}
