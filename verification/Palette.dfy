/** The palette, in the build where every 24-bit colour is kept exactly (KIOSK_FULL_COLOUR). */
module Palette {
  import opened Prelude

  const PALETTE_SIZE := 256
  const BLEND_CACHE := 96

  /** 0x00RRGGBB. */
  type Colour = c: int | 0 <= c < 0x100_0000

  function Channel(c: Colour, n: nat): (v: Byte)
    requires n < 3
  {
    if n == 0 then c % 0x100 else if n == 1 then c / 0x100 % 0x100 else c / 0x1_0000
  }

  function Square(a: int): nat {
    a * a
  }

  /** Squared distance in RGB space. */
  function Distance(a: Colour, b: Colour): nat {
    Square(Channel(a, 2) - Channel(b, 2)) + Square(Channel(a, 1) - Channel(b, 1)) + Square(Channel(a, 0) - Channel(b, 0))
  }

  /** First index of c; the length when absent. */
  function IndexOf(table: seq<Colour>, c: Colour): (i: nat)
    ensures i <= |table|
    ensures i < |table| ==> table[i] == c
    ensures c !in table[..i]
  {
    if table == [] || table[0] == c then 0
    else
      var i := 1 + IndexOf(table[1..], c);
      assert table[..i] == [table[0]] + table[1..][..i - 1];
      i
  }

  /** First index of a colour no farther from c than any other. */
  ghost predicate Nearest(table: seq<Colour>, c: Colour, i: nat) {
    && i < |table|
    && (forall k :: 0 <= k < |table| ==> Distance(c, table[i]) <= Distance(c, table[k]))
    && (forall k :: 0 <= k < i ==> Distance(c, table[i]) < Distance(c, table[k]))
  }

  /** palette_add as a relation: from `table`, asking for c gives index i and leaves `table'`. */
  ghost predicate Adds(table: seq<Colour>, c: Colour, table': seq<Colour>, i: nat) {
    if c in table then table' == table && i == IndexOf(table, c)
    else if |table| < PALETTE_SIZE then table' == table + [c] && i == |table|
    else table' == table && Nearest(table, c, i)
  }

  /** The distance of two colours is their squared distance in red, green and blue. */
  lemma DistanceIs(r: Byte, g: Byte, b: Byte, r': Byte, g': Byte, b': Byte)
    ensures Distance(r * 0x1_0000 + g * 0x100 + b, r' * 0x1_0000 + g' * 0x100 + b')
            == Square(r - r') + Square(g - g') + Square(b - b')
  {
    hide Square, Channel;
    ChannelsBack(r, g, b);
    ChannelsBack(r', g', b');
  }

  lemma {:induction false} IndexInPrefix(table: seq<Colour>, more: seq<Colour>, c: Colour)
    requires c in table
    ensures IndexOf(table + more, c) == IndexOf(table, c) < |table|
  {
    if table[0] != c {
      IndexInPrefix(table[1..], more, c);
      assert (table + more)[1..] == table[1..] + more;
    }
  }

  /** Asking is a function of what is there, and asking again changes nothing. */
  lemma {:induction false} AddsTwice(table: seq<Colour>, c: Colour, table': seq<Colour>, i: nat)
    requires Adds(table, c, table', i)
    ensures Adds(table', c, table', i)
    ensures i < |table'|
    ensures forall j: nat :: Adds(table', c, table', j) ==> j == i
  {
    if c in table { IndexInPrefix(table, [], c); assert table + [] == table; }
    else if |table| < PALETTE_SIZE {
      IndexIs(table', c, i);
    }
  }

  /** An index once given keeps its colour and stays the answer, whatever is added later. */
  lemma {:induction false} AnswerStays(table: seq<Colour>, c: Colour, i: nat, d: Colour, table': seq<Colour>, j: nat)
    requires |table| <= PALETTE_SIZE
    requires Adds(table, c, table, i) && Adds(table, d, table', j)
    ensures Adds(table', c, table', i)
    ensures table <= table' && |table'| <= PALETTE_SIZE
  {
    if c in table && table' != table { IndexInPrefix(table, [d], c); }
  }

  // ---- blending ------------------------------------------------------------------------------

  /** The mix weight of fg in thirty-seconds of its level, nearest: 0..8. */
  function BlendStep(level: Byte): nat {
    (level + 16) / 32
  }

  function MixChannel(a: Byte, b: Byte, w: nat): (m: Byte)
    requires w <= 256
    ensures a <= m <= b || b <= m <= a
  {
    MixBounds(a, b, w);
    (a * (256 - w) + b * w + 128) / 256
  }

  lemma {:induction false} MixBounds(a: Byte, b: Byte, w: nat)
    requires w <= 256
    ensures var m := (a * (256 - w) + b * w + 128) / 256; a <= m <= b || b <= m <= a
  {
    Distribute(a, 256, w);
    if a <= b {
      Scaled(b - a, w);
      Distribute(w, b, a);
      Between(a * 256, (b - a) * w, a, b);
    } else {
      Scaled(a - b, w);
      Distribute(w, a, b);
      Between(a * 256, -((a - b) * w), b, a);
    }
  }

  lemma {:induction false} Distribute(x: int, y: int, z: int)
    ensures x * (y - z) == x * y - x * z && x * y == y * x && x * z == z * x && x * (y - z) == (y - z) * x
  {
  }

  lemma {:induction false} Scaled(d: nat, w: nat)
    requires w <= 256
    ensures 0 <= d * w <= d * 256
  {
  }

  lemma {:induction false} Between(base: int, d: int, lo: int, hi: int)
    requires lo * 256 <= base + d <= hi * 256
    ensures lo <= (base + d + 128) / 256 <= hi
  {
  }

  function Mixed(bg: Colour, fg: Colour, w: nat): (c: Colour)
    requires w <= 256
  {
    MixChannel(Channel(bg, 2), Channel(fg, 2), w) * 0x1_0000
    + MixChannel(Channel(bg, 1), Channel(fg, 1), w) * 0x100
    + MixChannel(Channel(bg, 0), Channel(fg, 0), w)
  }

  lemma ChannelsMake(c: Colour)
    ensures c == Channel(c, 2) * 0x1_0000 + Channel(c, 1) * 0x100 + Channel(c, 0)
  {
  }

  lemma ChannelsBack(x: Byte, y: Byte, z: Byte)
    ensures var c: Colour := x * 0x1_0000 + y * 0x100 + z; Channel(c, 2) == x && Channel(c, 1) == y && Channel(c, 0) == z
  {
  }

  lemma {:induction false} ChannelNear(a: Byte, b: Byte, w: nat)
    requires w <= 256
    ensures -128 < 256 * MixChannel(a, b, w) - (256 * a + w * (b - a)) <= 128
  {
    Distribute(a, 256, w);
    Distribute(w, b, a);
  }

  /** Each channel of a mix is, to the nearest step, what lies w 256ths of the way from bg to fg; and the
      weight is the level to the nearest 32. */
  lemma {:induction false} MixNear(bg: Colour, fg: Colour, w: nat, level: Byte)
    requires w <= 256
    ensures forall n :: 0 <= n < 3 ==>
              -128 < 256 * Channel(Mixed(bg, fg, w), n) - (256 * Channel(bg, n) + w * (Channel(fg, n) - Channel(bg, n))) <= 128
    ensures -16 < 32 * BlendStep(level) - level <= 16
  {
    hide Channel, MixChannel;
    ChannelsBack(MixChannel(Channel(bg, 2), Channel(fg, 2), w), MixChannel(Channel(bg, 1), Channel(fg, 1), w),
                 MixChannel(Channel(bg, 0), Channel(fg, 0), w));
    ChannelNear(Channel(bg, 0), Channel(fg, 0), w);
    ChannelNear(Channel(bg, 1), Channel(fg, 1), w);
    ChannelNear(Channel(bg, 2), Channel(fg, 2), w);
  }

  /** palette_blend without its cache: the mix is looked up or added every time. */
  ghost predicate Blends(table: seq<Colour>, bg: nat, fg: nat, level: Byte, table': seq<Colour>, i: nat) {
    && bg < |table| && fg < |table|
    && var step := BlendStep(level);
       if step == 0 || bg == fg then table' == table && i == bg
       else if step >= 8 then table' == table && i == fg
       else Adds(table, Mixed(table[bg], table[fg], step * 32), table', i)
  }

  /** The blended entry shows the true blend of the two colours, bg and fg in the proportion of the level to
      256, to within 17 of 256 steps in every channel, as long as the palette need not fall back on
      its nearest colour. */
  lemma {:induction false} BlendShown(table: seq<Colour>, bg: nat, fg: nat, level: Byte, table': seq<Colour>, i: nat, n: nat)
    requires Blends(table, bg, fg, level, table', i) && n < 3
    requires |table| < PALETTE_SIZE || Mixed(table[bg], table[fg], Min(8, BlendStep(level)) * 32) in table
    ensures i < |table'|
    ensures var (a, b) := (Channel(table[bg], n), Channel(table[fg], n));
            -17 * 256 < 256 * Channel(table'[i], n) - (256 * a + level * (b - a)) < 17 * 256
  {
    assert bg < |table| && fg < |table|;
    hide Channel, Blends, Mixed;
    var (a, b, w) := (Channel(table[bg], n), Channel(table[fg], n), Min(8, BlendStep(level)) * 32);
    ShownMix(table, bg, fg, level, table', i, n);
    StepNear(level);
    WeightNear(a, b, w, level);
  }

  lemma StepNear(level: Byte)
    ensures -16 <= Min(8, BlendStep(level)) * 32 - level <= 16
  {
  }

  /** The entry shown is the mix, whichever way it was found. */
  lemma {:induction false} ShownMix(table: seq<Colour>, bg: nat, fg: nat, level: Byte, table': seq<Colour>, i: nat, n: nat)
    requires Blends(table, bg, fg, level, table', i) && n < 3
    requires |table| < PALETTE_SIZE || Mixed(table[bg], table[fg], Min(8, BlendStep(level)) * 32) in table
    ensures i < |table'|
    ensures var (a, b, w) := (Channel(table[bg], n), Channel(table[fg], n), Min(8, BlendStep(level)) * 32);
            -128 <= 256 * Channel(table'[i], n) - (256 * a + w * (b - a)) <= 128
  {
    hide Channel, Adds, Nearest, Mixed;
    var (c, d) := (table[bg], table[fg]);
    var (a, b, w) := (Channel(c, n), Channel(d, n), Min(8, BlendStep(level)) * 32);
    Weights(a, b);
    if w == 0 {
    } else if bg == fg {
      assert w * (b - a) == w * 0;
    } else if w < 256 {
      MixNear(c, d, w, level);
      AddedShown(table, Mixed(c, d, w), table', i);
    }
  }

  lemma AddedShown(table: seq<Colour>, c: Colour, table': seq<Colour>, i: nat)
    ensures Adds(table, c, table', i) && (|table| < PALETTE_SIZE || c in table) ==> i < |table'| && table'[i] == c
  {
    if c in table { IndexInPrefix(table, [], c); assert table + [] == table; IndexAt(table, c); }
  }

  lemma {:induction false} IndexAt(table: seq<Colour>, c: Colour)
    requires c in table
    ensures IndexOf(table, c) < |table| && table[IndexOf(table, c)] == c
  {
    if table[0] != c { IndexAt(table[1..], c); }
  }

  lemma WeightNear(a: Byte, b: Byte, w: nat, level: Byte)
    requires -16 <= w - level <= 16
    ensures -16 * 255 <= w * (b - a) - level * (b - a) <= 16 * 255
  {
    var x, y := w - level, b - a;
    assert w * y - level * y == x * y;
    assert -255 <= y <= 255;
    Product(x, y);
  }

  lemma Product(x: int, y: int)
    requires -16 <= x <= 16 && -255 <= y <= 255
    ensures -16 * 255 <= x * y <= 16 * 255
  {
    Signs(x, y);
    if x >= 0 && y >= 0 { ProductUp(x, y); }
    else if x >= 0 { ProductUp(x, -y); }
    else if y >= 0 { ProductUp(-x, y); }
    else { ProductUp(-x, -y); }
  }

  lemma Signs(x: int, y: int)
    ensures x * -y == -(x * y) && -x * y == -(x * y) && -x * -y == x * y
  {
  }

  lemma ProductUp(x: nat, y: nat)
    requires x <= 16 && y <= 255
    ensures 0 <= x * y <= 16 * 255
  {
    assert (16 - x) * y >= 0 && (16 - x) * y == 16 * y - x * y;
  }

  /** The ends of the scale: all bg, all fg. */
  lemma Weights(a: Byte, b: Byte)
    ensures 0 * (b - a) == 0 && 256 * (b - a) == 256 * b - 256 * a
  {
  }

  datatype Mix = Mix(bg: Byte, fg: Byte, level: Byte, idx: Byte)

  /** The cached answer is what the palette would answer now. */
  ghost predicate Fresh(table: seq<Colour>, m: Mix) {
    && m.bg < |table| && m.fg < |table| && m.level % 32 == 0
    && Adds(table, Mixed(table[m.bg], table[m.fg], m.level), table, m.idx)
  }

  ghost predicate AllFresh(table: seq<Colour>, cache: seq<Mix>) {
    forall i :: 0 <= i < |cache| ==> Fresh(table, cache[i])
  }

  lemma {:induction false} FreshStays(table: seq<Colour>, cache: seq<Mix>, d: Colour, table': seq<Colour>, j: nat)
    requires |table| <= PALETTE_SIZE && AllFresh(table, cache) && Adds(table, d, table', j)
    ensures table <= table' && |table'| <= PALETTE_SIZE && AllFresh(table', cache)
  {
    hide Adds, Mixed;
    AddsGrows(table, d, table', j);
    forall i | 0 <= i < |cache| ensures Fresh(table', cache[i]) {
      var m := cache[i];
      assert Fresh(table, m);
      AnswerStays(table, Mixed(table[m.bg], table[m.fg], m.level), m.idx, d, table', j);
    }
  }

  lemma {:induction false} AddsGrows(table: seq<Colour>, d: Colour, table': seq<Colour>, j: nat)
    requires |table| <= PALETTE_SIZE && Adds(table, d, table', j)
    ensures table <= table' && |table'| <= PALETTE_SIZE && j < |table'|
  {
    if d in table { IndexInPrefix(table, [], d); assert table + [] == table; }
  }

  class Palette {
    var rgb: array<Colour>
    var count: nat
    var dirtyFrom: nat
    var generation: nat
    var blend: array<Mix>
    var blendCount: nat
    var blendNext: nat

    ghost predicate Valid()
      reads this, rgb, blend
    {
      && rgb.Length == PALETTE_SIZE && count <= PALETTE_SIZE && dirtyFrom <= count && generation < 0x1_0000
      && blend.Length == BLEND_CACHE && blendCount <= BLEND_CACHE && blendNext < BLEND_CACHE
      && (blendCount < BLEND_CACHE ==> blendNext == blendCount)
      && AllFresh(Table(), blend[..blendCount])
    }

    ghost function Table(): seq<Colour>
      reads this`rgb, this`count, rgb
    {
      if count <= rgb.Length then rgb[..count] else []
    }

    /** Empty, with the next generation number. */
    method Reset()
      requires Valid()
      modifies this`count, this`dirtyFrom, this`generation, this`blendCount, this`blendNext, rgb
      ensures Valid() && Table() == [] && dirtyFrom == 0
      ensures generation == (old(generation) + 1) % 0x1_0000
    {
      forall k | 0 <= k < rgb.Length { rgb[k] := 0; }
      count, dirtyFrom, blendCount, blendNext := 0, 0, 0, 0;
      generation := (generation + 1) % 0x1_0000;
    }

    method FindExact(c: Colour) returns (i: nat)
      requires Valid()
      ensures i == IndexOf(Table(), c)
    {
      i := 0;
      while i < count && rgb[i] != c
        invariant i <= count && c !in Table()[..i]
      {
        i := i + 1;
      }
      IndexIs(Table(), c, i);
    }

    method FindNearest(c: Colour) returns (best: nat)
      requires Valid() && count == PALETTE_SIZE
      ensures Nearest(Table(), c, best)
    {
      best := 0;
      for k := 1 to PALETTE_SIZE
        invariant best < k && Nearest(Table()[..k], c, best)
      {
        if Distance(c, rgb[k]) < Distance(c, rgb[best]) { best := k; }
      }
      assert Table()[..PALETTE_SIZE] == Table();
    }

    /** Find or add; the nearest colour once the palette is full. Existing entries never move, so the
        answer's colour is exactly the one asked for unless the palette was full without it. */
    method Add(asked: nat) returns (i: Byte)
      requires Valid()
      modifies this`count, rgb
      ensures Valid() && old(Table()) <= Table()
      ensures Adds(old(Table()), asked % 0x100_0000, Table(), i)
      ensures i < count
    {
      hide Nearest, Mixed;
      var c: Colour := asked % 0x100_0000;
      ghost var before := Table();
      var k := FindExact(c);
      if k < count {
        AddsGrows(before, c, before, k);
        return k;
      }
      if count < PALETTE_SIZE {
        rgb[count] := c;
        count := count + 1;
        assert Table() == before + [c];
        i := count - 1;
        FreshStays(before, blend[..blendCount], c, Table(), i);
      } else {
        i := FindNearest(c);
        AddsGrows(before, c, before, i);
      }
    }

    method FindBlend(bg: Byte, fg: Byte, level: Byte) returns (i: nat)
      requires Valid()
      ensures i <= blendCount
      ensures i < blendCount ==> blend[i].bg == bg && blend[i].fg == fg && blend[i].level == level
    {
      i := 0;
      while i < blendCount && !(blend[i].bg == bg && blend[i].fg == fg && blend[i].level == level)
        invariant i <= blendCount
      {
        i := i + 1;
      }
    }

    method Remember(m: Mix)
      requires Valid() && Fresh(Table(), m)
      modifies this`blendCount, this`blendNext, blend
      ensures Valid()
    {
      hide Fresh;
      ghost var before := blend[..blendCount];
      blend[blendNext] := m;
      blendNext := blendNext + 1;
      if blendNext >= BLEND_CACHE { blendNext := 0; }
      if blendCount < BLEND_CACHE { blendCount := blendCount + 1; }
      forall i | 0 <= i < blendCount ensures Fresh(Table(), blend[..blendCount][i]) {
        if blend[i] != m { assert before[i] == blend[i]; }
      }
    }

    /** Mix level/255 of fg over bg, in 32nds. The cache never changes an answer: the index is the
        one the mix would be given without it. */
    method Blend(bg: Byte, fg: Byte, level: Byte) returns (i: Byte)
      requires Valid() && bg < count && fg < count
      modifies this`count, this`blendCount, this`blendNext, rgb, blend
      ensures Valid() && old(Table()) <= Table() && i < count
      ensures Blends(old(Table()), bg, fg, level, Table(), i)
    {
      hide Adds, Mixed;
      var step := BlendStep(level);
      if step == 0 || bg == fg { return bg; }
      if step >= 8 { return fg; }
      var k := FindBlend(bg, fg, step * 32);
      if k < blendCount {
        i := blend[k].idx;
        Recalled(Table(), blend[..blendCount], k);
        return;
      }
      ghost var before := Table();
      var mixed := Mixed(rgb[bg], rgb[fg], step * 32);
      i := Add(mixed);
      NowFresh(before, mixed, Table(), i, Mix(bg, fg, step * 32, i));
      Remember(Mix(bg, fg, step * 32, i));
    }
  }

  lemma {:induction false} Recalled(table: seq<Colour>, cache: seq<Mix>, k: nat)
    requires |table| <= PALETTE_SIZE && AllFresh(table, cache) && k < |cache|
    ensures Fresh(table, cache[k])
    ensures cache[k].idx < |table|
  {
    hide Mixed;
    assert Fresh(table, cache[k]);
    var m := cache[k];
    AddsTwice(table, Mixed(table[m.bg], table[m.fg], m.level), table, m.idx);
  }

  lemma {:induction false} NowFresh(table: seq<Colour>, c: Colour, table': seq<Colour>, i: Byte, m: Mix)
    requires |table| <= PALETTE_SIZE && Adds(table, c, table', i)
    requires m.bg < |table| && m.fg < |table| && m.level % 32 == 0 && m.idx == i
    requires c == Mixed(table[m.bg], table[m.fg], m.level)
    ensures Fresh(table', m)
  {
    hide Mixed, Adds;
    AddsTwice(table, c, table', i);
    AddsGrows(table, c, table', i);
  }

  lemma {:induction false} IndexIs(table: seq<Colour>, c: Colour, i: nat)
    requires i <= |table| && c !in table[..i] && (i < |table| ==> table[i] == c)
    ensures i == IndexOf(table, c)
  {
    var k := IndexOf(table, c);
    assert forall j :: 0 <= j < k ==> table[j] != c by {
      forall j | 0 <= j < k ensures table[j] != c { assert table[j] in table[..k]; }
    }
    assert forall j :: 0 <= j < i ==> table[j] != c by {
      forall j | 0 <= j < i ensures table[j] != c { assert table[j] in table[..i]; }
    }
  }
}
