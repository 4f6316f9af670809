/** The scanout's own code over its arrays: the DMA interrupt, the pruning loop, the line builder and
    the palette upload, each proved to do what the protocol and colour models assume of it. */
module HstxScanout {
  import opened Prelude
  import opened HstxSlots
  import HstxLine
  import HstxColours
  import RingLayout
  import P = Palette

  class SlotTable {
    const use: array<Use>
    const y: array<nat>
    const len: array<nat>
    var words: seq<seq<nat>>
    const posted: array<int>
    var pong: bool
    var next: nat
    const chan: array<Feed>

    ghost predicate Valid()
      reads this, use, y, len, posted, chan
    {
      Separate() && Shape(View())
    }

    ghost predicate Separate() {
      y != len
    }

    ghost function View(): Slots
      reads this, use, y, len, posted, chan
    {
      Slots(use[..], y[..], len[..], words, posted[..], pong, next, chan[..])
    }

    constructor (blank: seq<seq<nat>>)
      requires |blank| == LINE_SLOTS && forall k :: 0 <= k < LINE_SLOTS ==> |blank[k]| == LINE_WORDS
      ensures Valid() && fresh(use) && fresh(y) && fresh(len) && fresh(posted) && fresh(chan)
      ensures words == blank && next == 2 && !pong
      ensures posted[..] == [-1, -1] && chan[..] == [Blank, Blank]
      ensures forall k :: 0 <= k < LINE_SLOTS ==> use[k] == Free
    {
      use := new Use[LINE_SLOTS](_ => Free);
      y := new nat[LINE_SLOTS](_ => 0);
      len := new nat[LINE_SLOTS](_ => 0);
      posted := new int[2](_ => -1);
      chan := new Feed[2](_ => Blank);
      words, pong, next := blank, false, 2;
    }

    method FindReadySlot(row: nat) returns (s: nat)
      requires Valid()
      ensures s == FindReady(use[..], y[..], row, 0) && s <= LINE_SLOTS
    {
      s := 0;
      while s < LINE_SLOTS && !(use[s] == Ready && y[s] == row)
        invariant s <= LINE_SLOTS
        invariant FindReady(use[..], y[..], row, 0) == FindReady(use[..], y[..], row, s)
      {
        s := s + 1;
      }
    }

    method ReleaseChannel(i: nat)
      requires Valid() && i < 2
      modifies use, posted
      ensures Valid() && View() == Release(old(View()), i)
    {
      if posted[i] >= 0 {
        use[posted[i]] := Free;
        posted[i] := -1;
      }
      assert posted[..] == Release(old(View()), i).posted;
      assert use[..] == Release(old(View()), i).use;
    }

    method PostScanline(t: Timing, i: nat, v: nat)
      requires Valid() && i < 2
      modifies use, posted, chan
      ensures Valid() && View() == Post(t, old(View()), i, v)
    {
      if t.vsyncFirst <= v < t.vsyncEnd {
        chan[i] := VSync;
      } else if v < t.vBlank {
        chan[i] := Blank;
      } else {
        var s := FindReadySlot((v - t.vBlank) % 0x10000);
        if s < LINE_SLOTS {
          use[s] := Posted;
          posted[i] := s;
          chan[i] := Line(y[s], s, len[s]);
        } else {
          chan[i] := Black;
        }
      }
      ghost var p := Post(t, old(View()), i, v);
      assert use[..] == p.use && posted[..] == p.posted && chan[..] == p.chan;
    }

    /** dma_irq: the protocol's interrupt step, on the arrays. */
    method DmaIrq(t: Timing)
      requires Valid()
      modifies this`pong, this`next, use, posted, chan
      ensures Valid() && View() == Interrupt(t, old(View()))
    {
      hide Release, Post;
      var i := if pong then 1 else 0;
      TurnAside(t, View(), !pong);
      pong := !pong;
      ReleaseChannel(i);
      var v := next;
      PostScanline(t, i, v);
      v := v + 1;
      if v >= t.vTotal { v := 0; }
      next := v;
    }

    /** Lines built for scanlines the beam has passed are freed; the rest keep their state. */
    method Prune(t: Timing, at: nat)
      requires Valid() && 0 < t.vTotal && at <= t.vTotal
      modifies use
      ensures Valid() && View() == FreeStale(t, old(View()), at)
    {
      hide Stale;
      for k := 0 to LINE_SLOTS
        invariant forall j :: 0 <= j < LINE_SLOTS ==>
                    use[j] == if j < k && old(use[j]) == Ready && Stale(t, y[j], at) then Free else old(use[j])
      {
        if use[k] == Ready {
          if Stale(t, y[k], at) { use[k] := Free; }
        }
      }
      assert use[..] == FreeStale(t, old(View()), at).use;
    }
  }

  /** Neither half of the interrupt looks at whose turn is next. */
  lemma {:induction false} TurnAside(t: Timing, s: Slots, b: bool)
    requires Shape(s)
    ensures Post(t, Release(s.(pong := b), Turn(s)), Turn(s), s.next)
            == Post(t, Release(s, Turn(s)), Turn(s), s.next).(pong := b)
  {
  }

  // ---- colours -------------------------------------------------------------------------------

  class ColourTables {
    const tables0: array<Word>
    const tables1: array<Word>
    var table: nat
    var gen: nat
    var bound: bool

    ghost predicate Valid()
      reads this, tables0, tables1
    {
      tables0 != tables1 && tables0.Length == tables1.Length == 256 && table < 2
    }

    ghost function View(): HstxColours.Scan
      reads this, tables0, tables1
    {
      HstxColours.Scan([tables0[..], tables1[..]], table, gen, bound)
    }

    constructor ()
      ensures Valid() && fresh(tables0) && fresh(tables1)
      ensures table == 0 && gen == 0 && !bound
    {
      tables0 := new Word[256](_ => 0);
      tables1 := new Word[256](_ => 0);
      table, gen, bound := 0, 0, false;
    }

    /** scanout_upload_palette: the new entries go to the table in use, or all of them to the other
        table after a reset. */
    method UploadPalette(pal: P.Palette)
      requires Valid() && pal.Valid()
      modifies this, tables0, tables1, pal`dirtyFrom
      ensures Valid() && pal.Valid() && pal.Table() == old(pal.Table()) && pal.generation == old(pal.generation)
      ensures (PalView(pal), View()) == HstxColours.Upload(old(PalView(pal)), old(View()))
    {
      hide P.AllFresh;
      var from := pal.dirtyFrom;
      if bound && pal.generation != gen {
        table := 1 - table;
        from := 0;
      }
      bound := true;
      gen := pal.generation;
      CopyEntries(if table == 0 then tables0 else tables1, from, pal.rgb, pal.count);
      pal.dirtyFrom := pal.count;
      assert View().tables == old(View().tables)[table := HstxColours.Fill(old(View().tables)[table], from, pal.Table())];
    }

    /** scanout_encode_line: colours added while rendering are uploaded before a line that may use
        them is packed; then the line is packed against the table in use. */
    method EncodeLine(pal: P.Palette, px: seq<Byte>, out: array<Byte>, max: nat) returns (n: nat)
      requires Valid() && pal.Valid() && max <= out.Length
      modifies this, tables0, tables1, pal`dirtyFrom, out
      ensures Valid() && pal.Valid() && pal.Table() == old(pal.Table())
      ensures (PalView(pal), View()) == HstxColours.Refresh(old(PalView(pal)), old(View()))
      ensures n == if 1 + |HstxLine.Runs(px)| <= max then 1 + |HstxLine.Runs(px)| else 0
      ensures n > 0 ==> out[..n] == HstxColours.Packed(px, table)
    {
      hide HstxLine.Runs, HstxColours.Upload, P.AllFresh;
      if bound && (pal.dirtyFrom < pal.count || pal.generation != gen) { UploadPalette(pal); }
      n := HstxLine.PackLine(px, table, out, max);
    }
  }

  ghost function PalView(pal: P.Palette): HstxColours.Pal
    reads pal, pal.rgb
  {
    HstxColours.Pal(pal.Table(), pal.dirtyFrom, pal.generation)
  }

  method CopyEntries(dst: array<Word>, from: nat, rgb: array<P.Colour>, count: nat)
    requires dst.Length == 256 && from <= count <= rgb.Length && count <= 256
    modifies dst
    ensures dst[..] == HstxColours.Fill(old(dst[..]), from, rgb[..count])
  {
    for i := from to count
      invariant forall k :: 0 <= k < 256 ==> dst[k] == if from <= k < i then rgb[k] else old(dst[k])
    {
      dst[i] := rgb[i];
    }
  }

  // ---- building a line -----------------------------------------------------------------------

  /** The row whose bytes row y shows: the nearest at or above it that is not a duplicate, or row 0. */
  function Source(line: seq<RingLayout.Ref>, y: nat): (r: nat)
    requires y < |line|
    ensures r <= y && (line[r].dup ==> r == 0)
    ensures forall k :: r < k <= y ==> line[k].dup
  {
    if line[y].dup && y > 0 then Source(line, y - 1) else y
  }

  method FindSource(line: seq<RingLayout.Ref>, y: nat) returns (src: nat)
    requires y < |line|
    ensures src == Source(line, y)
  {
    src := y;
    while line[src].dup && src > 0
      invariant 0 <= src <= y && Source(line, src) == Source(line, y)
    {
      src := src - 1;
    }
  }

  /** The packed bytes row y shows; none when everything up to row 0 is a duplicate. */
  ghost function SourceBytes(line: seq<RingLayout.Ref>, mem: seq<Byte>, y: nat): seq<Byte>
    requires y < |line|
  {
    var l := line[Source(line, y)];
    if l.dup || l.off + l.len > |mem| then [] else mem[l.off..l.off + l.len]
  }

  /** Words a black line takes: the prefix and one run. */
  const BLACK_WORDS := 8

  /** build_line: a slot receives the row's own colours, or those of the row it repeats, or a black
      line exactly when there is nothing to show or more runs than a slot holds. Never a partial line. */
  method BuildLine(prefix: seq<Word>, line: seq<RingLayout.Ref>, mem: seq<Byte>, y: nat,
                   tables: seq<seq<Word>>, width: nat, out: array<Word>) returns (n: nat)
    requires |prefix| == 6 && HstxLine.TwoTables(tables) && 0 < width <= HstxLine.MAX_COUNT
    requires out.Length == LINE_WORDS && y < |line|
    requires forall k :: 0 <= k < |line| ==> line[k].off + line[k].len <= |mem|
    modifies out
    ensures 6 < n <= LINE_WORDS && out[..6] == prefix
    ensures var bytes := SourceBytes(line, mem, y);
            HstxLine.Pixels(out[6..n]) ==
              if 8 + 2 * HstxLine.Needed(HstxLine.Body(bytes), width) <= LINE_WORDS
              then HstxLine.Shown(bytes, tables, width) else Repeat<Word>(0, width)
  {
    hide HstxLine.Shown, HstxLine.Needed, HstxLine.Pixels, Repeat;
    var src := FindSource(line, y);
    var l := line[src];
    var bytes := if l.dup then [] else mem[l.off..l.off + l.len];
    n := HstxLine.ActiveLinePacked(prefix, bytes, tables, width, out, LINE_WORDS);
    if n == 0 {
      n := BlackLine(prefix, width, out);
    } else {
      PixelsNonempty(out[6..n], bytes, tables, width);
    }
  }

  lemma {:induction false} PixelsNonempty(words: seq<Word>, bytes: seq<Byte>, tables: seq<seq<Word>>, width: nat)
    requires HstxLine.TwoTables(tables) && width > 0 && HstxLine.Pixels(words) == HstxLine.Shown(bytes, tables, width)
    ensures words != []
  {
    assert |HstxLine.Shown(bytes, tables, width)| == width;
    assert HstxLine.Pixels([]) == [];
  }

  method BlackLine(prefix: seq<Word>, width: nat, out: array<Word>) returns (n: nat)
    requires |prefix| == 6 && width <= HstxLine.MAX_COUNT && out.Length >= BLACK_WORDS
    modifies out
    ensures n == BLACK_WORDS && out[..6] == prefix && HstxLine.Pixels(out[6..n]) == Repeat<Word>(0, width)
  {
    hide HstxLine.Pixels;
    HstxLine.WritePrefix(prefix, out);
    assert out[..6] == prefix;
    HstxLine.AppendPair(out, 6, HstxLine.TMDS_REPEAT + width, 0);
    n := BLACK_WORDS;
    assert out[..8][..6] == prefix;
    assert out[6..8] == [HstxLine.TMDS_REPEAT + width, 0];
    OneRun(width);
  }

  lemma {:induction false} OneRun(width: nat)
    requires width <= HstxLine.MAX_COUNT
    ensures HstxLine.Pixels([HstxLine.TMDS_REPEAT + width, 0]) == Repeat<Word>(0, width)
  {
    var w: seq<Word> := [HstxLine.TMDS_REPEAT + width, 0];
    assert w[2..] == [];
    assert HstxLine.Pixels(w) == HstxLine.Lead(w[0], w[1]) + HstxLine.Pixels(w[2..]);
  }
}
