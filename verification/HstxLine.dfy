/** Lines in the pool's packed format: a table byte, then (palette index, run length - 1) pairs; and
    their expansion into HSTX commands, two words a run. */
module HstxLine {
  import opened Prelude

  const MAX_COUNT := 0xfff
  const TMDS_REPEAT := 0x3000

  // ---- packing -------------------------------------------------------------------------------

  /** Pixels in a run, from its length byte. */
  function Count(b: Byte): nat {
    b + 1 as nat
  }

  /** The palette indices a run list stands for. */
  function Expand(runs: seq<Byte>): (px: seq<Byte>)
  {
    if |runs| < 2 then [] else Repeat(runs[0], Count(runs[1])) + Expand(runs[2..])
  }

  /** Length of the run of equal pixels px starts with, 256 at most. */
  function RunLength(px: seq<Byte>): (n: nat)
    requires px != []
    ensures 1 <= n <= |px| && n <= 256
    ensures forall k :: 0 <= k < n ==> px[k] == px[0]
    ensures n < 256 && n < |px| ==> px[n] != px[0]
  {
    RunOf(px, 1)
  }

  function RunOf(px: seq<Byte>, n: nat): (r: nat)
    requires 1 <= n <= |px| && n <= 256 && forall k :: 0 <= k < n ==> px[k] == px[0]
    ensures n <= r <= |px| && r <= 256
    ensures forall k :: 0 <= k < r ==> px[k] == px[0]
    ensures r < 256 && r < |px| ==> px[r] != px[0]
    decreases |px| - n
  {
    if n < 256 && n < |px| && px[n] == px[0] then RunOf(px, n + 1) else n
  }

  /** px cut into runs as long as possible. */
  function Runs(px: seq<Byte>): (r: seq<Byte>)
    ensures |r| % 2 == 0 && |r| <= 2 * |px|
    decreases |px|
  {
    if px == [] then []
    else
      var n := RunLength(px);
      [px[0], n - 1] + Runs(px[n..])
  }

  lemma {:induction false} RunsHead(px: seq<Byte>)
    requires px != []
    ensures Runs(px) == [px[0], RunLength(px) - 1] + Runs(px[RunLength(px)..])
    ensures |Runs(px)| == 2 + |Runs(px[RunLength(px)..])|
  {
  }

  lemma {:induction false} ExpandHead(i: Byte, n: Byte, rest: seq<Byte>)
    ensures Expand([i, n] + rest) == Repeat(i, Count(n)) + Expand(rest)
  {
    assert ([i, n] + rest)[2..] == rest;
  }

  lemma Dropped<T>(s: seq<T>, a: nat, b: nat)
    requires a + b <= |s|
    ensures s[a..][b..] == s[a + b..]
  {
  }

  lemma {:induction false} ExpandRuns(px: seq<Byte>)
    ensures Expand(Runs(px)) == px
    decreases |px|
  {
    hide RunLength, Repeat;
    if px != [] {
      hide Runs, Expand, Count;
      var n := RunLength(px);
      ExpandRuns(px[n..]);
      RunsHead(px);
      ExpandHead(px[0], n - 1, Runs(px[n..]));
      FirstPixels(px, n);
    }
  }

  lemma {:induction false} FirstPixels(px: seq<Byte>, n: nat)
    requires 0 < n <= |px| && n <= 256 && forall k :: 0 <= k < n ==> px[k] == px[0]
    ensures Repeat(px[0], Count(n - 1)) + px[n..] == px
  {
    assert Repeat(px[0], n) == px[..n];
  }

  lemma {:induction false} RunLengthMax(px: seq<Byte>, m: nat)
    requires 0 < m <= |px| && m <= 256 && forall k :: 0 <= k < m ==> px[k] == px[0]
    ensures m <= RunLength(px)
  {
    assert m == |px| || m <= RunLength(px) || px[RunLength(px)] == px[0];
  }

  /** Dropping pixels from the front never needs more runs. */
  lemma {:induction false} RunsShrink(px: seq<Byte>, m: nat)
    requires m <= |px|
    ensures |Runs(px[m..])| <= |Runs(px)|
    decreases |px|
  {
    hide RunLength;
    if px != [] {
      hide Runs;
      var n := RunLength(px);
      if m >= n {
        RunsShrink(px[n..], m - n);
        Dropped(px, n, m - n);
        RunsHead(px);
      } else {
        RunsWithin(px, m);
      }
    }
  }

  lemma {:induction false} RunsWithin(px: seq<Byte>, m: nat)
    requires px != [] && m < RunLength(px)
    ensures |Runs(px[m..])| <= |Runs(px)|
    decreases |px|, 0
  {
    hide Runs, RunLength;
    var n, rest := RunLength(px), px[m..];
    RunTail(px, m);
    RunsHead(px);
    RunsHead(rest);
    var l := RunLength(rest);
    if m > 0 { RunsShrink(px[n..], l - (n - m)); } else { assert rest == px; }
    Dropped(px, n, l - (n - m));
    Dropped(px, m, l);
  }

  lemma {:induction false} RunTail(px: seq<Byte>, m: nat)
    requires px != [] && m < RunLength(px)
    ensures RunLength(px) - m <= RunLength(px[m..])
  {
    hide RunLength;
    var n, rest := RunLength(px), px[m..];
    assert forall k :: 0 <= k < n - m ==> rest[k] == px[m + k];
    RunLengthMax(rest, n - m);
  }

  /** No run list for the same pixels is shorter than the one Runs gives. */
  lemma {:induction false} RunsShortest(px: seq<Byte>, other: seq<Byte>)
    requires Expand(other) == px && |other| % 2 == 0
    ensures |Runs(px)| <= |other|
    decreases |other|
  {
    if px != [] {
      hide Runs, RunLength;
      var m, rest := Count(other[1]), Expand(other[2..]);
      FirstRun(px, other[0], m, rest);
      hide Expand;
      RunsShortest(rest, other[2..]);
      RunsHead(px);
      var n := RunLength(px);
      RunsShrink(rest, n - m);
      Dropped(px, m, n - m);
    }
  }

  lemma {:induction false} FirstRun(px: seq<Byte>, idx: Byte, m: nat, rest: seq<Byte>)
    requires px == Repeat(idx, m) + rest && 0 < m <= 256
    ensures px != [] && m <= RunLength(px) && px[m..] == rest
  {
    assert forall k :: 0 <= k < m ==> px[k] == idx;
    RunLengthMax(px, m);
  }

  /** The packed line, when it fits in max bytes; otherwise 0. It fits whenever any list of runs for
      these pixels would: the runs written are as few as can be. */
  method PackLine(px: seq<Byte>, table: Byte, out: array<Byte>, max: nat) returns (n: nat)
    requires max <= out.Length
    modifies out
    ensures n == if 1 + |Runs(px)| <= max then 1 + |Runs(px)| else 0
    ensures n > 0 ==> out[..n] == [table % 2] + Runs(px) && Expand(out[1..n]) == px
    ensures n == 0 ==> forall other: seq<Byte> :: |other| % 2 == 0 && Expand(other) == px ==> 1 + |other| > max
  {
    ExpandRuns(px);
    forall other: seq<Byte> | |other| % 2 == 0 && Expand(other) == px ensures |Runs(px)| <= |other| {
      RunsShortest(px, other);
    }
    if max < 1 { return 0; }
    n := PackRuns(px, table, out, max);
  }

  method PackRuns(px: seq<Byte>, table: Byte, out: array<Byte>, max: nat) returns (n: nat)
    requires 1 <= max <= out.Length
    modifies out
    ensures n == if 1 + |Runs(px)| <= max then 1 + |Runs(px)| else 0
    ensures n > 0 ==> out[..n] == [table % 2] + Runs(px)
  {
    hide Runs;
    out[0] := table % 2;
    n := 1;
    var x := 0;
    assert px[0..] == px;
    while x < |px|
      invariant x <= |px| && 1 <= n <= max
      invariant out[..n] + Runs(px[x..]) == [table % 2] + Runs(px)
    {
      var run := MeasureRun(px, x);
      RunFound(px, x, run);
      if n + 2 > max { return 0; }
      ghost var before := out[..n];
      out[n] := px[x];
      out[n + 1] := run - 1;
      n := n + 2;
      assert out[..n] == before + [px[x], run - 1];
      x := x + run;
    }
    RunsEmpty(px, x);
  }

  lemma {:induction false} RunsEmpty(px: seq<Byte>, x: nat)
    requires x == |px|
    ensures Runs(px[x..]) == []
  {
  }

  method MeasureRun(px: seq<Byte>, x: nat) returns (run: nat)
    requires x < |px|
    ensures 1 <= run <= 256 && x + run <= |px|
    ensures forall k :: x <= k < x + run ==> px[k] == px[x]
    ensures run < 256 && x + run < |px| ==> px[x + run] != px[x]
  {
    run := 1;
    while run < 256 && x + run < |px| && px[x + run] == px[x]
      invariant 1 <= run <= 256 && x + run <= |px|
      invariant forall k :: x <= k < x + run ==> px[k] == px[x]
    {
      run := run + 1;
    }
  }

  lemma {:induction false} RunFound(px: seq<Byte>, x: nat, run: nat)
    requires x < |px| && 1 <= run <= 256 && x + run <= |px|
    requires forall k :: x <= k < x + run ==> px[k] == px[x]
    requires run < 256 && x + run < |px| ==> px[x + run] != px[x]
    ensures Runs(px[x..]) == [px[x], run - 1] + Runs(px[x + run..])
  {
    hide Runs;
    var s := px[x..];
    RunLengthMax(s, run);
    RunsHead(s);
    assert s[run..] == px[x + run..];
  }

  // ---- expansion into HSTX commands ----------------------------------------------------------

  /** The colours a list of TMDS_REPEAT commands puts on the wire. */
  function Pixels(words: seq<Word>): (c: seq<Word>) {
    if |words| < 2 then [] else Lead(words[0], words[1]) + Pixels(words[2..])
  }

  function Lead(cmd: Word, c: Word): seq<Word> {
    Repeat(c, if cmd >= TMDS_REPEAT then cmd - TMDS_REPEAT else 0)
  }

  lemma Joined<T>(all: seq<T>, a: seq<T>, b: seq<T>, c: seq<T>)
    requires all == a + (b + c)
    ensures all == (a + b) + c
  {
  }

  lemma {:induction false} PixelsAppend(words: seq<Word>, cmd: Word, c: Word)
    requires |words| % 2 == 0 && cmd >= TMDS_REPEAT
    ensures Pixels(words + [cmd, c]) == Pixels(words) + Repeat(c, cmd - TMDS_REPEAT)
  {
    if words == [] {
      assert words + [cmd, c] == [cmd, c];
      assert [cmd, c][2..] == [];
    } else {
      PixelsAppend(words[2..], cmd, c);
      var all := words + [cmd, c];
      assert all[2..] == words[2..] + [cmd, c] && all[0] == words[0] && all[1] == words[1];
      Joined(Pixels(all), Lead(words[0], words[1]), Pixels(words[2..]), Repeat(c, cmd - TMDS_REPEAT));
    }
  }

  /** What a line of the given runs should look like: each index's colour, black past the last run. */
  ghost function Colours(runs: seq<Byte>, rgb: seq<Word>, width: nat): (c: seq<Word>)
    requires |rgb| == 256
    ensures |c| == width
  {
    var px := Expand(runs);
    seq<Word>(width, x requires 0 <= x => if x < |px| then rgb[px[x]] else 0)
  }

  /** Runs needed to cover `width` pixels: all of them, or those up to the one that reaches it. */
  function Needed(runs: seq<Byte>, width: nat): (k: nat)
    ensures k <= width && 2 * k <= |runs|
  {
    if |runs| < 2 || width == 0 then 0
    else if Count(runs[1]) >= width then 1
    else 1 + Needed(runs[2..], width - Count(runs[1]))
  }

  lemma {:induction false} ColoursSplit(runs: seq<Byte>, rgb: seq<Word>, width: nat)
    requires |rgb| == 256
    ensures width == 0 || |runs| < 2 ==> Colours(runs, rgb, width) == Repeat(0, width)
    ensures width > 0 && |runs| >= 2 ==>
              var n := Min(Count(runs[1]), width);
              Colours(runs, rgb, width) == Repeat(rgb[runs[0]], n) + Colours(runs[2..], rgb, width - n)
  {
  }

  /** A packed line's runs, and the table it names; an empty line has no runs. */
  function Body(packed: seq<Byte>): seq<Byte> {
    if packed == [] then [] else packed[1..]
  }

  function TableOf(packed: seq<Byte>): (t: nat)
    ensures t < 2
  {
    if packed == [] then 0 else packed[0] % 2
  }

  ghost predicate TwoTables(tables: seq<seq<Word>>) {
    |tables| == 2 && |tables[0]| == 256 && |tables[1]| == 256
  }

  /** What a packed line shows through the two colour tables. */
  ghost function Shown(packed: seq<Byte>, tables: seq<seq<Word>>, width: nat): (c: seq<Word>)
    requires TwoTables(tables)
    ensures |c| == width
  {
    Colours(Body(packed), tables[TableOf(packed)], width)
  }

  /** The invariant of the expansion: words written so far, and what the rest of the runs will add. */
  ghost predicate Expanding(words: seq<Word>, prefix: seq<Word>, rest: seq<Byte>, rgb: seq<Word>, left: nat, whole: seq<Word>)
    requires |rgb| == 256
  {
    && |words| >= 6 && |words| % 2 == 0 && |prefix| == 6 && words[..6] == prefix
    && Pixels(words[6..]) + Colours(rest, rgb, left) == whole
  }

  lemma {:induction false} ExpandingRun(words: seq<Word>, prefix: seq<Word>, rest: seq<Byte>, rgb: seq<Word>, left: nat,
                                        whole: seq<Word>, words': seq<Word>, run: nat)
    requires |rgb| == 256 && Expanding(words, prefix, rest, rgb, left, whole)
    requires |rest| >= 2 && left > 0 && run == Min(Count(rest[1]), left)
    requires words' == words + [TMDS_REPEAT + run, rgb[rest[0]]]
    ensures Expanding(words', prefix, rest[2..], rgb, left - run, whole)
  {
    hide Colours, Pixels;
    ColoursSplit(rest, rgb, left);
    PixelsAppend(words[6..], TMDS_REPEAT + run, rgb[rest[0]]);
    assert words'[6..] == words[6..] + [TMDS_REPEAT + run, rgb[rest[0]]];
    assert words'[..6] == words[..6];
    Joined(whole, Pixels(words[6..]), Repeat(rgb[rest[0]], run), Colours(rest[2..], rgb, left - run));
  }

  lemma {:induction false} ExpandingEnd(words: seq<Word>, prefix: seq<Word>, rest: seq<Byte>, rgb: seq<Word>, left: nat,
                                        whole: seq<Word>, words': seq<Word>)
    requires |rgb| == 256 && Expanding(words, prefix, rest, rgb, left, whole) && left <= MAX_COUNT
    requires |rest| < 2 || left == 0
    requires words' == if left > 0 then words + [TMDS_REPEAT + left, 0] else words
    ensures |words'| >= 6 && words'[..6] == prefix && Pixels(words'[6..]) == whole
  {
    hide Colours, Pixels;
    ColoursSplit(rest, rgb, left);
    if left > 0 {
      PixelsAppend(words[6..], TMDS_REPEAT + left, 0);
      assert words'[6..] == words[6..] + [TMDS_REPEAT + left, 0];
    }
  }

  lemma {:induction false} NeededStep(rest: seq<Byte>, left: nat)
    requires |rest| >= 2 && left > 0
    ensures Needed(rest, left) == 1 + Needed(rest[2..], left - Min(Count(rest[1]), left))
  {
  }

  /** A scanline of exactly `width` pixels, each the colour its index has in the table the line names
      and black past the last run; 0 exactly when the runs it takes do not fit in max words. */
  method ActiveLinePacked(prefix: seq<Word>, packed: seq<Byte>, tables: seq<seq<Word>>, width: nat,
                          out: array<Word>, max: nat) returns (n: nat)
    requires |prefix| == 6 && TwoTables(tables) && width <= MAX_COUNT && max <= out.Length
    modifies out
    ensures n == 0 <==> max < 8 + 2 * Needed(Body(packed), width)
    ensures n > 0 ==> 6 <= n <= max && out[..6] == prefix && Pixels(out[6..n]) == Shown(packed, tables, width)
  {
    hide Expanding, Pixels, Colours, Needed;
    if max < 8 { return 0; }
    WritePrefix(prefix, out);
    n := 6;
    var x, i := 0, 1;
    ghost var runs, whole := Body(packed), Shown(packed, tables, width);
    ghost var t := TableOf(packed);
    ExpandingStart(out[..6], prefix, packed, tables, width);
    while i + 1 < |packed| && x < width
      invariant 0 <= x <= width && 1 <= i && n == 5 + i <= max - 2
      invariant i <= |packed| || packed == []
      invariant Expanding(out[..n], prefix, if i <= |packed| then packed[i..] else [], tables[t], width - x, whole)
      invariant 2 * Needed(runs, width) == i - 1 + 2 * Needed(if i <= |packed| then packed[i..] else [], width - x)
    {
      ghost var rest, left, before := packed[i..], width - x, out[..n];
      var run: nat := packed[i + 1] + 1 as nat;
      if run > width - x { run := width - x; }
      NeededStep(rest, left);
      if n + 2 > max - 2 { NeededPositive(rest[2..], left - run); return 0; }
      AppendPair(out, n, TMDS_REPEAT + run, tables[packed[0] % 2][packed[i]]);
      n := n + 2;
      ExpandingRun(before, prefix, rest, tables[t], left, whole, out[..n], run);
      Dropped(packed, i, 2);
      x := x + run;
      i := i + 2;
    }
    ghost var before, rest, left := out[..n], if i <= |packed| then packed[i..] else [], width - x;
    NeededNone(rest, left);
    n := FillBlack(out, n, width - x);
    ExpandingEnd(before, prefix, rest, tables[t], left, whole, out[..n]);
    assert out[..n][6..] == out[6..n];
  }

  /** Black to the end of the line. */
  method FillBlack(out: array<Word>, n: nat, left: nat) returns (m: nat)
    requires n + 2 <= out.Length && TMDS_REPEAT + left < 0x1_0000_0000
    modifies out
    ensures m == if left > 0 then n + 2 else n
    ensures out[..m] == old(out[..n]) + if left > 0 then [TMDS_REPEAT + left, 0] else []
  {
    if left == 0 { return n; }
    AppendPair(out, n, TMDS_REPEAT + left, 0);
    return n + 2;
  }

  method AppendPair(out: array<Word>, n: nat, cmd: Word, c: Word)
    requires n + 2 <= out.Length
    modifies out
    ensures out[..n + 2] == old(out[..n]) + [cmd, c]
  {
    out[n] := cmd;
    out[n + 1] := c;
  }

  lemma {:induction false} NeededPositive(rest: seq<Byte>, left: nat)
    ensures Needed(rest, left) >= 0
  {
  }

  lemma {:induction false} NeededNone(rest: seq<Byte>, left: nat)
    requires |rest| < 2 || left == 0
    ensures Needed(rest, left) == 0
  {
  }

  lemma {:induction false} ExpandingStart(words: seq<Word>, prefix: seq<Word>, packed: seq<Byte>, tables: seq<seq<Word>>, width: nat)
    requires TwoTables(tables) && |prefix| == 6 && words == prefix
    ensures Expanding(words, prefix, Body(packed), tables[TableOf(packed)], width, Shown(packed, tables, width))
  {
    assert words[6..] == [];
  }

  method WritePrefix(prefix: seq<Word>, out: array<Word>)
    requires |prefix| == 6 <= out.Length
    modifies out
    ensures out[..6] == prefix
  {
    for k := 0 to 6
      invariant out[..k] == prefix[..k]
    {
      out[k] := prefix[k];
    }
  }

  /** Packing then expanding shows every pixel in the colour the table gives its index. */
  lemma {:induction false} PackedShown(px: seq<Byte>, table: Byte, tables: seq<seq<Word>>)
    requires TwoTables(tables)
    ensures Shown([table % 2] + Runs(px), tables, |px|) == seq<Word>(|px|, x requires 0 <= x < |px| => tables[table % 2][px[x]])
    ensures 2 * Needed(Runs(px), |px|) == |Runs(px)|
  {
    hide Runs, Expand;
    ExpandRuns(px);
    assert Body([table % 2] + Runs(px)) == Runs(px);
    NeededAll(px);
  }

  lemma {:induction false} NeededAll(px: seq<Byte>)
    ensures 2 * Needed(Runs(px), |px|) == |Runs(px)|
    decreases |px|
  {
    hide RunLength;
    if px != [] {
      hide Runs;
      var n := RunLength(px);
      RunsHead(px);
      NeededAll(px[n..]);
      NeededOne(Runs(px), Runs(px[n..]), px[0], n, |px|);
    }
  }

  lemma {:induction false} NeededOne(runs: seq<Byte>, rest: seq<Byte>, idx: Byte, n: nat, width: nat)
    requires 0 < n <= 256 && n <= width && runs == [idx, n - 1] + rest
    ensures Needed(runs, width) == 1 + Needed(rest, width - n)
  {
    assert runs[2..] == rest;
  }
}
