/** The two colour tables. Lines hold palette indices and name the table they were packed against; a
    palette reset moves new lines to the other table. This module runs the palette, the tables and
    the published lines together and shows that a line keeps its colours until it is replaced. */
module HstxColours {
  import opened Prelude
  import opened Palette
  import opened HstxLine

  /** The palette as the scanout sees it: its entries, the first not uploaded, its generation. */
  datatype Pal = Pal(rgb: seq<Colour>, dirty: nat, gen: nat)

  /** The scanout's side: both tables, the one in use, the generation it holds, and whether any
      palette was uploaded yet. */
  datatype Scan = Scan(tables: seq<seq<Word>>, table: nat, gen: nat, bound: bool)

  ghost predicate PalOk(p: Pal) {
    |p.rgb| <= PALETTE_SIZE && p.dirty <= |p.rgb|
  }

  ghost predicate ScanOk(s: Scan) {
    TwoTables(s.tables) && s.table < 2
  }

  function Fill(t: seq<Word>, from: nat, rgb: seq<Colour>): (r: seq<Word>)
    ensures |r| == |t|
  {
    seq<Word>(|t|, i requires 0 <= i < |t| => if from <= i < |rgb| then rgb[i] else t[i])
  }

  predicate Flips(p: Pal, s: Scan) {
    s.bound && p.gen != s.gen
  }

  function Upload(p: Pal, s: Scan): (r: (Pal, Scan))
    requires ScanOk(s)
    ensures ScanOk(r.1)
  {
    var t := if Flips(p, s) then 1 - s.table else s.table;
    var from := if Flips(p, s) then 0 else p.dirty;
    (p.(dirty := |p.rgb|), Scan(s.tables[t := Fill(s.tables[t], from, p.rgb)], t, p.gen, true))
  }

  /** scanout_encode_line uploads first when there is anything new. */
  function Refresh(p: Pal, s: Scan): (r: (Pal, Scan))
    requires ScanOk(s)
    ensures ScanOk(r.1)
  {
    if s.bound && (p.dirty < |p.rgb| || p.gen != s.gen) then Upload(p, s) else (p, s)
  }

  function Packed(px: seq<Byte>, table: nat): seq<Byte>
    requires table < 2
  {
    [table] + Runs(px)
  }

  /** Rendering(y): rows 0..y of the new frame are published. */
  datatype Phase = Idle | Rendering(y: nat)

  /** What the screen holds: a packed line, or a repeat of the line above. */
  datatype Row = Dup | Line(px: seq<Byte>, table: nat)

  /** `resets` counts palette resets since the last upload. want[y] is history: the colours row y had
      when it was packed, for rows of frames rendered with a palette. */
  datatype Sys = Sys(pal: Pal, scan: Scan, rows: seq<Row>, phase: Phase, resets: nat, want: seq<Option<seq<Word>>>)

  datatype Step =
    | StartFrame
    | AddColour(c: Colour)
    | BeginFrame
    | Encode(px: seq<Byte>, stored: bool)
    | EndFrame

  predicate InPalette(px: seq<Byte>, n: nat) {
    forall x :: 0 <= x < |px| ==> px[x] < n
  }

  /** More entries than this and the next frame to be decoded starts with a reset. */
  const RESET_THRESHOLD := 208

  /** The colour every decoder asks for first. */
  const BACKGROUND: Colour := 0x0D1B2A

  /** The table after c was asked for. */
  function Grown(rgb: seq<Colour>, c: Colour): (r: seq<Colour>)
    ensures rgb <= r
  {
    if c in rgb || |rgb| >= PALETTE_SIZE then rgb else rgb + [c]
  }

  /** palette_add leaves the table Grown says, whatever index it answers. */
  lemma GrownAdds(rgb: seq<Colour>, c: Colour, rgb': seq<Colour>, i: nat)
    requires Adds(rgb, c, rgb', i)
    ensures rgb' == Grown(rgb, c)
  {
  }

  predicate StartResets(p: Pal) { |p.rgb| > RESET_THRESHOLD }

  /** The decoder's start: a reset when the palette is nearly full, then the background. */
  function Started(p: Pal): (r: Pal) {
    if StartResets(p) then Pal([BACKGROUND], 0, (p.gen + 1) % 0x1_0000) else p.(rgb := Grown(p.rgb, BACKGROUND))
  }

  /** The renderer's order: frames are decoded between renderings, colours are asked for one at a time
      while decoding and rendering, and a frame publishes every row from the top. A frame that fails to
      decode is never rendered. */
  ghost predicate Enabled(s: Sys, step: Step) {
    && PalOk(s.pal) && ScanOk(s.scan)
    && match step
       case StartFrame => s.phase.Idle?
       case AddColour(_) => s.pal.rgb != []
       case BeginFrame => s.phase.Idle?
       case Encode(px, _) => s.phase.Rendering? && s.phase.y < |s.rows| == |s.want| && InPalette(px, |s.pal.rgb|)
       case EndFrame => s.phase.Rendering? && s.phase.y == |s.rows|
  }

  function Look(rgb: seq<Colour>, px: seq<Byte>): (c: seq<Word>)
    requires InPalette(px, |rgb|)
  {
    seq<Word>(|px|, x requires 0 <= x < |px| => rgb[px[x]])
  }

  ghost function Next(s: Sys, step: Step): Sys
    requires Enabled(s, step)
  {
    match step
    case StartFrame => s.(pal := Started(s.pal), resets := if StartResets(s.pal) then s.resets + 1 else s.resets)
    case AddColour(c) => s.(pal := s.pal.(rgb := Grown(s.pal.rgb, c)))
    case BeginFrame =>
      var (p, c) := Upload(s.pal, s.scan);
      s.(pal := p, scan := c, phase := Rendering(0), resets := 0)
    case Encode(px, stored) =>
      var (p, c) := Refresh(s.pal, s.scan);
      s.(pal := p, scan := c, phase := Rendering(s.phase.y + 1),
         rows := s.rows[s.phase.y := if stored then Line(px, c.table) else Dup],
         want := s.want[s.phase.y := if stored then Some(Look(s.pal.rgb, px)) else None])
    case EndFrame =>
      var (p, c) := Upload(s.pal, s.scan);
      s.(pal := p, scan := c, phase := Idle)
  }

  // ---- what every reachable state satisfies --------------------------------------------------

  /** The generation tells whether the palette was reset since the last upload; if not, the table in
      use agrees with the palette as far as it was uploaded. */
  ghost predicate Tracks(p: Pal, s: Scan, resets: nat)
    requires ScanOk(s)
  {
    && s.gen < 0x1_0000 && p.gen == (s.gen + resets) % 0x1_0000 && (resets > 0 ==> p.dirty == 0)
    && (s.bound && resets == 0 ==> Agrees(p, s))
    && (!s.bound ==> p.dirty == 0)
  }

  /** The 16-bit generation tells this many resets from none. */
  predicate Noticed(resets: nat) { resets == 0 || resets % 0x1_0000 != 0 }

  ghost predicate Agrees(p: Pal, s: Scan)
    requires ScanOk(s)
  {
    p.dirty <= |p.rgb| && p.dirty <= 256 && forall i :: 0 <= i < p.dirty ==> s.tables[s.table][i] == p.rgb[i]
  }

  /** Row y, if its colours are on record, shows them now; if it uses the table in use, its indices
      are all uploaded ones. */
  ghost predicate RowOk(p: Pal, s: Scan, resets: nat, row: Row, want: Option<seq<Word>>)
    requires ScanOk(s)
  {
    row.Line? && want.Some? ==>
      && row.table < 2
      && Shown(Packed(row.px, row.table), s.tables, |row.px|) == want.value
      && (row.table == s.table && resets == 0 ==> InPalette(row.px, p.dirty))
  }

  ghost predicate RowsOk(p: Pal, s: Scan, resets: nat, rows: seq<Row>, want: seq<Option<seq<Word>>>)
    requires ScanOk(s)
  {
    |rows| == |want| && forall y :: 0 <= y < |rows| ==> RowOk(p, s, resets, rows[y], want[y])
  }

  /** The rows published so far in this frame, or all of them between frames, use one table. */
  ghost predicate OneTable(rows: seq<Row>, want: seq<Option<seq<Word>>>, n: nat, table: nat) {
    n <= |rows| == |want| && forall y :: 0 <= y < n && rows[y].Line? && want[y].Some? ==> rows[y].table == table
  }

  /** Entry 0 is the background and no colour is stored twice. */
  ghost predicate Entries(rgb: seq<Colour>) {
    && (rgb != [] ==> rgb[0] == BACKGROUND)
    && forall i, j :: 0 <= i < j < |rgb| ==> rgb[i] != rgb[j]
  }

  ghost predicate Inv(s: Sys) {
    && PalOk(s.pal) && ScanOk(s.scan) && Entries(s.pal.rgb)
    && Tracks(s.pal, s.scan, s.resets)
    && RowsOk(s.pal, s.scan, s.resets, s.rows, s.want)
    && OneTable(s.rows, s.want, if s.phase.Idle? then |s.rows| else s.phase.y, s.scan.table)
    && (s.phase.Rendering? ==> s.resets == 0 && s.scan.bound)
    && (!s.scan.bound ==> forall y :: 0 <= y < |s.want| ==> s.want[y] == None)
  }

  /** Start-up: an empty palette just initialised, black lines published without a palette. */
  ghost predicate Init(s: Sys) {
    && s.pal == Pal([], 0, 1) && TwoTables(s.scan.tables) && s.scan == Scan(s.scan.tables, 0, 0, false)
    && s.phase == Idle && s.resets == 1 && |s.rows| == |s.want|
    && forall y :: 0 <= y < |s.want| ==> s.want[y] == None
  }

  lemma {:induction false} InitInv(s: Sys)
    requires Init(s)
    ensures Inv(s)
  {
    hide Packed, Shown;
  }

  /** A packed line shows each index's entry of its table. */
  lemma {:induction false} ShownIs(px: seq<Byte>, table: nat, tables: seq<seq<Word>>)
    requires TwoTables(tables) && table < 2
    ensures Shown(Packed(px, table), tables, |px|) == seq<Word>(|px|, x requires 0 <= x < |px| => tables[table][px[x]])
  {
    hide Shown, Runs;
    PackedShown(px, table, tables);
  }

  lemma {:induction false} ShownSame(px: seq<Byte>, table: nat, tables: seq<seq<Word>>, tables': seq<seq<Word>>)
    requires TwoTables(tables) && TwoTables(tables') && table < 2
    requires forall x :: 0 <= x < |px| ==> tables'[table][px[x]] == tables[table][px[x]]
    ensures Shown(Packed(px, table), tables', |px|) == Shown(Packed(px, table), tables, |px|)
  {
    hide Shown, Packed;
    ShownIs(px, table, tables);
    ShownIs(px, table, tables');
  }

  lemma {:induction false} UploadTracks(p: Pal, s: Scan, resets: nat)
    requires PalOk(p) && ScanOk(s) && Tracks(p, s, resets)
    ensures var (p', s') := Upload(p, s);
            && PalOk(p') && p'.rgb == p.rgb && p'.dirty == |p.rgb| && Tracks(p', s', 0) && s'.bound
            && Flips(p, s) == (s.bound && resets % 0x1_0000 != 0)
  {
    Wraps(s.gen, resets);
  }

  /** The table flips exactly when the generation shows a reset; the other table is left alone. */
  lemma {:induction false} UploadTables(p: Pal, s: Scan)
    requires PalOk(p) && ScanOk(s)
    ensures var s' := Upload(p, s).1;
            && s'.table == (if Flips(p, s) then 1 - s.table else s.table)
            && s'.tables[1 - s'.table] == s.tables[1 - s'.table]
            && (!Flips(p, s) ==> forall i :: 0 <= i < p.dirty ==> s'.tables[s.table][i] == s.tables[s.table][i])
  {
  }

  lemma {:induction false} UploadRow(p: Pal, s: Scan, resets: nat, row: Row, want: Option<seq<Word>>)
    requires PalOk(p) && ScanOk(s) && Tracks(p, s, resets) && RowOk(p, s, resets, row, want)
    requires Noticed(resets) && (row.Line? && want.Some? ==> s.bound && (resets > 0 ==> row.table == s.table))
    ensures var (p', s') := Upload(p, s); RowOk(p', s', 0, row, want)
  {
    hide Shown, Packed, Upload;
    UploadTracks(p, s, resets);
    UploadTables(p, s);
    if row.Line? && want.Some? {
      ShownSame(row.px, row.table, s.tables, Upload(p, s).1.tables);
    }
  }

  lemma {:induction false} UploadRows(s: Sys)
    requires Inv(s) && Noticed(s.resets)
    ensures var (p', c') := Upload(s.pal, s.scan); RowsOk(p', c', 0, s.rows, s.want)
  {
    hide RowOk, Upload, Tracks;
    forall y | 0 <= y < |s.rows| ensures var (p', c') := Upload(s.pal, s.scan); RowOk(p', c', 0, s.rows[y], s.want[y]) {
      UploadRow(s.pal, s.scan, s.resets, s.rows[y], s.want[y]);
    }
  }

  lemma {:induction false} BeginInv(s: Sys)
    requires Inv(s) && Enabled(s, BeginFrame) && Noticed(s.resets)
    ensures Inv(Next(s, BeginFrame))
  {
    hide RowOk, Upload, Tracks, RowsOk;
    UploadTracks(s.pal, s.scan, s.resets);
    UploadRows(s);
  }

  lemma {:induction false} EndInv(s: Sys)
    requires Inv(s) && Enabled(s, EndFrame)
    ensures Inv(Next(s, EndFrame))
  {
    hide RowOk, Upload, Tracks, RowsOk;
    UploadTracks(s.pal, s.scan, s.resets);
    UploadTables(s.pal, s.scan);
    UploadRows(s);
  }

  /** After the upload before a line is packed, every index of the palette is in the table. */
  lemma {:induction false} RefreshReady(s: Sys)
    requires Inv(s) && s.phase.Rendering?
    ensures var (p, c) := Refresh(s.pal, s.scan);
            && PalOk(p) && p.rgb == s.pal.rgb && p.dirty == |p.rgb| && c.bound && c.table == s.scan.table
            && Tracks(p, c, 0) && Agrees(p, c) && RowsOk(p, c, 0, s.rows, s.want)
  {
    hide RowOk, RowsOk;
    if s.pal.dirty < |s.pal.rgb| {
      UploadTracks(s.pal, s.scan, s.resets);
      UploadTables(s.pal, s.scan);
      UploadRows(s);
    }
  }

  lemma {:induction false} EncodeInv(s: Sys, px: seq<Byte>, stored: bool)
    requires Inv(s) && Enabled(s, Encode(px, stored))
    ensures Inv(Next(s, Encode(px, stored)))
  {
    hide RowOk, RowsOk, Tracks, Refresh;
    RefreshReady(s);
    var (p, c) := Refresh(s.pal, s.scan);
    var y := s.phase.y;
    var row := if stored then Line(px, c.table) else Dup;
    var want: Option<seq<Word>> := if stored then Some(Look(s.pal.rgb, px)) else None;
    NewRow(p, c, px, stored);
    RowsUpdate(p, c, s.rows, s.want, y, row, want);
  }

  lemma {:induction false} NewRow(p: Pal, c: Scan, px: seq<Byte>, stored: bool)
    requires PalOk(p) && ScanOk(c) && p.dirty == |p.rgb| && Agrees(p, c) && InPalette(px, |p.rgb|)
    ensures RowOk(p, c, 0, if stored then Line(px, c.table) else Dup, if stored then Some(Look(p.rgb, px)) else None)
  {
    hide Shown, Packed;
    ShownIs(px, c.table, c.tables);
  }

  lemma {:induction false} RowsUpdate(p: Pal, c: Scan, rows: seq<Row>, want: seq<Option<seq<Word>>>, y: nat,
                                      row: Row, w: Option<seq<Word>>)
    requires ScanOk(c) && RowsOk(p, c, 0, rows, want) && y < |rows| && RowOk(p, c, 0, row, w)
    ensures RowsOk(p, c, 0, rows[y := row], want[y := w])
  {
    hide RowOk;
  }

  lemma {:induction false} GrownEntries(rgb: seq<Colour>, c: Colour)
    requires Entries(rgb) && (rgb == [] ==> c == BACKGROUND)
    ensures Entries(Grown(rgb, c))
  {
  }

  lemma {:induction false} StartedOk(p: Pal, s: Scan, resets: nat)
    requires PalOk(p) && ScanOk(s) && Entries(p.rgb) && Tracks(p, s, resets)
    ensures var (q, r) := (Started(p), if StartResets(p) then resets + 1 else resets);
            PalOk(q) && Entries(q.rgb) && Tracks(q, s, r) && (r == 0 ==> q.dirty == p.dirty)
  {
    if !StartResets(p) { GrownEntries(p.rgb, BACKGROUND); }
  }

  lemma {:induction false} PaletteInv(s: Sys, step: Step)
    requires Inv(s) && Enabled(s, step) && (step.AddColour? || step.StartFrame?)
    ensures Inv(Next(s, step))
  {
    hide Shown, Packed, Grown, Started, StartResets, Entries;
    var n := Next(s, step);
    if step.AddColour? { GrownEntries(s.pal.rgb, step.c); GrownSize(s.pal.rgb, step.c); }
    else { StartedOk(s.pal, s.scan, s.resets); }
    forall y | 0 <= y < |s.rows| ensures RowOk(n.pal, n.scan, n.resets, n.rows[y], n.want[y]) {
      assert RowOk(s.pal, s.scan, s.resets, s.rows[y], s.want[y]);
    }
  }

  lemma GrownSize(rgb: seq<Colour>, c: Colour)
    requires |rgb| <= PALETTE_SIZE
    ensures |Grown(rgb, c)| <= PALETTE_SIZE
  {
  }

  /** Every step keeps every row's colours, as long as no frame begins with resets gone unnoticed. */
  lemma {:induction false} StepInv(s: Sys, step: Step)
    requires Inv(s) && Enabled(s, step) && (step.BeginFrame? ==> Noticed(s.resets))
    ensures Inv(Next(s, step))
  {
    hide Inv, Next;
    match step
    case StartFrame => PaletteInv(s, step);
    case AddColour(_) => PaletteInv(s, step);
    case BeginFrame => BeginInv(s);
    case Encode(px, stored) => EncodeInv(s, px, stored);
    case EndFrame => EndInv(s);
  }

  // ---- whole runs ----------------------------------------------------------------------------

  /** The state after a schedule; a step that is not enabled does nothing. */
  ghost function After(s: Sys, steps: seq<Step>): Sys {
    if steps == [] then s
    else
      var p, step := After(s, steps[..|steps| - 1]), steps[|steps| - 1];
      if Enabled(p, step) then Next(p, step) else p
  }

  /** No frame begins with resets gone unnoticed. */
  ghost predicate Counted(s: Sys, steps: seq<Step>) {
    forall j :: 0 <= j < |steps| && steps[j].BeginFrame? ==> Noticed(After(s, steps[..j]).resets)
  }

  lemma {:induction false} RunInv(s: Sys, steps: seq<Step>)
    requires Inv(s) && Counted(s, steps)
    ensures Inv(After(s, steps))
  {
    hide Inv, Enabled, Next, Noticed;
    if steps != [] {
      var k := |steps| - 1;
      var pre := steps[..k];
      forall j | 0 <= j < k && pre[j].BeginFrame? ensures Noticed(After(s, pre[..j]).resets) {
        assert pre[..j] == steps[..j];
      }
      RunInv(s, pre);
      var p := After(s, pre);
      if Enabled(p, steps[k]) { StepInv(p, steps[k]); }
    }
  }

  /** Row y is not packed again during the schedule. */
  ghost predicate Kept(s: Sys, steps: seq<Step>, y: nat) {
    forall j :: 0 <= j < |steps| && steps[j].Encode? ==> After(s, steps[..j]).phase != Rendering(y)
  }

  lemma {:induction false} RowStays(s: Sys, step: Step, y: nat)
    requires Enabled(s, step) && y < |s.rows| == |s.want| && (step.Encode? ==> s.phase != Rendering(y))
    ensures var n := Next(s, step); |n.rows| == |s.rows| == |s.want| == |n.want| && n.rows[y] == s.rows[y] && n.want[y] == s.want[y]
  {
  }

  lemma {:induction false} RowStaysRun(s: Sys, steps: seq<Step>, y: nat)
    requires y < |s.rows| == |s.want| && Kept(s, steps, y)
    ensures var n := After(s, steps); |n.rows| == |s.rows| == |s.want| == |n.want| && n.rows[y] == s.rows[y] && n.want[y] == s.want[y]
  {
    hide Enabled, Next;
    if steps != [] {
      var k := |steps| - 1;
      var pre := steps[..k];
      forall j | 0 <= j < k && pre[j].Encode? ensures After(s, pre[..j]).phase != Rendering(y) {
        assert pre[..j] == steps[..j];
      }
      RowStaysRun(s, pre, y);
      var p := After(s, pre);
      if Enabled(p, steps[k]) { RowStays(p, steps[k], y); }
    }
  }

  lemma {:induction false} InvSizes(s: Sys)
    requires Inv(s)
    ensures |s.rows| == |s.want|
  {
    hide RowOk, Tracks;
  }

  lemma {:induction false} InvShows(s: Sys, y: nat)
    requires Inv(s) && y < |s.rows|
    ensures |s.want| == |s.rows| && ScanOk(s.scan)
    ensures s.rows[y].Line? && s.want[y].Some? ==>
              s.rows[y].table < 2
              && Shown(Packed(s.rows[y].px, s.rows[y].table), s.scan.tables, |s.rows[y].px|) == s.want[y].value
  {
    hide Shown, Packed, Tracks;
    assert RowOk(s.pal, s.scan, s.resets, s.rows[y], s.want[y]);
  }

  lemma {:induction false} AfterOne(s: Sys, step: Step)
    requires Enabled(s, step)
    ensures After(s, [step]) == Next(s, step)
  {
    hide Enabled, Next;
    assert [step][..0] == [];
    assert After(s, [step][..0]) == s;
  }

  /** A row packed in any frame shows, whatever is added to the palette and however often it is reset
      between frames, exactly the colours its indices had when it was packed, for as long as the row
      is not packed again and no frame begins with resets gone unnoticed. */
  lemma {:induction false} ColoursSurvive(s: Sys, px: seq<Byte>, later: seq<Step>)
    requires Inv(s) && Enabled(s, Encode(px, true))
    requires Kept(Next(s, Encode(px, true)), later, s.phase.y) && Counted(Next(s, Encode(px, true)), later)
    ensures var n := After(Next(s, Encode(px, true)), later);
            && ScanOk(n.scan) && s.phase.y < |n.rows|
            && var row := n.rows[s.phase.y];
               && row.Line? && row.px == px && row.table < 2
               && Shown(Packed(row.px, row.table), n.scan.tables, |px|) == Look(s.pal.rgb, px)
  {
    hide Inv, After, Kept, Counted, Look, Shown, Packed, Refresh;
    var m, y := Next(s, Encode(px, true)), s.phase.y;
    StepInv(s, Encode(px, true));
    InvSizes(s);
    InvSizes(m);
    RowStaysRun(m, later, y);
    RunInv(m, later);
    InvShows(After(m, later), y);
  }

  // ---- the limit of the generation counter ---------------------------------------------------

  /** 65536 resets between two uploads look like none. Exactly then the upload overwrites the table in
      use, and a line on screen keeps its colours only if the new palette happens to agree at every
      index it uses. */
  lemma {:induction false} ResetLimit(p: Pal, s: Scan, resets: nat, px: seq<Byte>)
    requires PalOk(p) && ScanOk(s) && s.bound && s.gen < 0x1_0000
    requires resets > 0 && p.dirty == 0 && p.gen == (s.gen + resets) % 0x1_0000
    ensures Shown(Packed(px, s.table), Upload(p, s).1.tables, |px|) == Shown(Packed(px, s.table), s.tables, |px|)
            <==> resets % 0x1_0000 != 0
                 || forall x :: 0 <= x < |px| && px[x] < |p.rgb| ==> s.tables[s.table][px[x]] == p.rgb[px[x]]
  {
    hide Shown, Packed;
    var t, t' := s.tables, Upload(p, s).1.tables;
    ShownIs(px, s.table, t);
    ShownIs(px, s.table, t');
    Wraps(s.gen, resets);
    if resets % 0x1_0000 == 0 {
      forall x | 0 <= x < |px|
        ensures Shown(Packed(px, s.table), t', |px|)[x] == (if px[x] < |p.rgb| then p.rgb[px[x]] else t[s.table][px[x]])
      {
      }
    }
  }

  lemma {:induction false} Wraps(gen: nat, resets: nat)
    requires gen < 0x1_0000
    ensures (gen + resets) % 0x1_0000 == gen <==> resets % 0x1_0000 == 0
  {
  }

  /** In any reachable state the start of a frame keeps a published row's colours if and only if the
      resets since the last upload are noticed, or the new palette has the row's colours where it has
      an entry at all. */
  lemma {:induction false} BeginKeepsIff(s: Sys, y: nat)
    requires Inv(s) && Enabled(s, BeginFrame) && y < |s.rows| == |s.want|
    requires s.rows[y].Line? && s.want[y].Some?
    ensures var (row, want, n) := (s.rows[y], s.want[y].value, Next(s, BeginFrame));
            && row.table < 2 && |want| == |row.px| && n.rows[y] == row
            && (Shown(Packed(row.px, row.table), n.scan.tables, |row.px|) == want
                <==> Noticed(s.resets) || forall x :: 0 <= x < |want| && row.px[x] < |s.pal.rgb| ==> s.pal.rgb[row.px[x]] == want[x])
  {
    hide Shown, Packed, Upload;
    var row, want := s.rows[y], s.want[y].value;
    assert RowOk(s.pal, s.scan, s.resets, row, s.want[y]);
    ShownIs(row.px, row.table, s.scan.tables);
    if Noticed(s.resets) {
      UploadRow(s.pal, s.scan, s.resets, row, s.want[y]);
    } else {
      ResetLimit(s.pal, s.scan, s.resets, row.px);
    }
  }

  // ---- a run that reaches the limit ----------------------------------------------------------

  /** The background and the n colours after base. */
  function Table(base: nat, n: nat): (rgb: seq<Colour>)
    requires base + n < 0x1000
    ensures |rgb| == n + 1 && rgb[0] == BACKGROUND && (n > 0 ==> rgb[1] == base + 1)
  {
    seq<Colour>(n + 1, i requires 0 <= i <= n => if i == 0 then BACKGROUND else base + i)
  }

  /** A frame asks for the n colours after base. */
  function Adding(base: nat, n: nat): (steps: seq<Step>)
    requires base + n < 0x1000
  {
    if n == 0 then [] else Adding(base, n - 1) + [AddColour(base + n)]
  }

  const OLD := 0
  const NEW := 0x400

  /** k frames in a row that fill the palette and then fail to decode. */
  function FailedFrames(k: nat): (steps: seq<Step>) {
    if k == 0 then [] else FailedFrames(k - 1) + ([StartFrame] + Adding(NEW, RESET_THRESHOLD))
  }

  /** k rows that show the entry px uses. */
  function Rows(px: seq<Byte>, k: nat): (steps: seq<Step>) {
    if k == 0 then [] else Rows(px, k - 1) + [Encode(px, true)]
  }

  /** Row content that uses entry 1 alone. */
  ghost predicate Ones(px: seq<Byte>) {
    px != [] && forall x :: 0 <= x < |px| ==> px[x] == 1
  }

  lemma {:induction false} AfterMore(s: Sys, steps: seq<Step>, step: Step)
    requires Enabled(After(s, steps), step)
    ensures After(s, steps + [step]) == Next(After(s, steps), step)
  {
    hide Enabled, Next;
    assert (steps + [step])[..|steps|] == steps;
  }

  lemma {:induction false} AfterJoin(s: Sys, a: seq<Step>, b: seq<Step>)
    ensures After(s, a + b) == After(After(s, a), b)
  {
    hide Enabled, Next;
    if b == [] {
      assert a + b == a;
    } else {
      var n := |b| - 1;
      AfterJoin(s, a, b[..n]);
      assert (a + b)[..|a + b| - 1] == a + b[..n];
    }
  }

  lemma {:induction false} TableGrows(base: nat, n: nat)
    requires 0 < n && base + n < 0x1000 && n <= RESET_THRESHOLD
    ensures Grown(Table(base, n - 1), base + n) == Table(base, n)
  {
  }

  /** n colours asked for one by one after the background. */
  lemma {:induction false} Added(s: Sys, base: nat, n: nat)
    requires base + n < 0x1000 && n <= RESET_THRESHOLD
    requires PalOk(s.pal) && ScanOk(s.scan) && s.pal.rgb == [BACKGROUND]
    ensures After(s, Adding(base, n)) == s.(pal := s.pal.(rgb := Table(base, n)))
  {
    hide Next;
    if n > 0 {
      Added(s, base, n - 1);
      var a := Adding(base, n - 1);
      AddOne(After(s, a), base, n);
      AfterMore(s, a, AddColour(base + n));
    } else {
      assert Table(base, 0) == [BACKGROUND];
    }
  }

  lemma {:induction false} AddOne(s: Sys, base: nat, n: nat)
    requires 0 < n && base + n < 0x1000 && n <= RESET_THRESHOLD
    requires PalOk(s.pal) && ScanOk(s.scan) && s.pal.rgb == Table(base, n - 1)
    ensures Enabled(s, AddColour(base + n))
    ensures Next(s, AddColour(base + n)) == s.(pal := s.pal.(rgb := Table(base, n)))
  {
    hide Table, Grown;
    TableGrows(base, n);
  }

  /** A frame is decoded that asks for colours of its own, filling the palette. */
  lemma {:induction false} Decoded(s: Sys, base: nat)
    requires base + RESET_THRESHOLD < 0x1000
    requires s.phase.Idle? && PalOk(s.pal) && ScanOk(s.scan) && (s.pal.rgb == [] || StartResets(s.pal))
    ensures After(s, [StartFrame] + Adding(base, RESET_THRESHOLD))
            == s.(pal := if StartResets(s.pal) then Pal(Table(base, RESET_THRESHOLD), 0, (s.pal.gen + 1) % 0x1_0000)
                         else s.pal.(rgb := Table(base, RESET_THRESHOLD)),
                  resets := if StartResets(s.pal) then s.resets + 1 else s.resets)
  {
    hide After, Adding, Table;
    AfterOne(s, StartFrame);
    AfterJoin(s, [StartFrame], Adding(base, RESET_THRESHOLD));
    Added(Next(s, StartFrame), base, RESET_THRESHOLD);
  }

  /** All colours in use are uploaded. */
  ghost predicate Clean(s: Sys) {
    && PalOk(s.pal) && ScanOk(s.scan) && s.scan.bound && s.pal.gen == s.scan.gen == 1
    && s.pal == Pal(Table(OLD, RESET_THRESHOLD), RESET_THRESHOLD + 1, 1)
    && s.scan.table == 0 && s.scan.tables[0][1] == OLD + 1 && s.resets == 0
  }

  /** The first frame is decoded and begins. */
  function FirstFrame(): (steps: seq<Step>) {
    [StartFrame] + Adding(OLD, RESET_THRESHOLD) + [BeginFrame]
  }

  lemma {:induction false} FirstBegins(s: Sys)
    requires Init(s)
    ensures var t := After(s, FirstFrame());
            Clean(t) && t.phase == Rendering(0) && t.rows == s.rows && t.want == s.want
  {
    hide After, Adding, Table;
    Decoded(s, OLD);
    AfterMore(s, [StartFrame] + Adding(OLD, RESET_THRESHOLD), BeginFrame);
  }

  lemma {:induction false} RowPacked(s: Sys, y: nat, px: seq<Byte>)
    requires Clean(s) && s.phase == Rendering(y) && y < |s.rows| == |s.want| && Ones(px)
    ensures Enabled(s, Encode(px, true)) && LookIs(s, px, OLD + 1)
    ensures var n := Next(s, Encode(px, true));
            n == s.(phase := Rendering(y + 1), rows := s.rows[y := Line(px, 0)], want := n.want) && |n.want| == |s.want|
  {
    hide Table;
  }

  /** The row's pixels all have one colour in the palette. */
  ghost predicate LookIs(s: Sys, px: seq<Byte>, c: Colour) {
    InPalette(px, |s.pal.rgb|) && forall x :: 0 <= x < |px| ==> Look(s.pal.rgb, px)[x] == c
  }

  /** k rows after the first, which is not packed again. */
  lemma {:induction false} RowsPacked(s: Sys, k: nat, px: seq<Byte>)
    requires Clean(s) && s.phase == Rendering(1) && 1 + k <= |s.rows| == |s.want| && Ones(px)
    ensures var t := After(s, Rows(px, k));
            && t == s.(phase := Rendering(1 + k), rows := t.rows, want := t.want) && |t.rows| == |t.want| == |s.rows|
    ensures Kept(s, Rows(px, k), 0)
  {
    hide Enabled, Next, Kept, Ones, LookIs;
    if k > 0 {
      RowsPacked(s, k - 1, px);
      var t := After(s, Rows(px, k - 1));
      StillClean(s, t);
      RowPacked(t, k, px);
      AfterMore(s, Rows(px, k - 1), Encode(px, true));
    }
    KeptMore(s, k, px);
  }

  lemma {:induction false} KeptMore(s: Sys, k: nat, px: seq<Byte>)
    requires k > 0 ==> Kept(s, Rows(px, k - 1), 0) && After(s, Rows(px, k - 1)).phase == Rendering(k)
    ensures Kept(s, Rows(px, k), 0)
  {
    hide After;
    if k > 0 {
      var r, pre := Rows(px, k), Rows(px, k - 1);
      forall j | 0 <= j < |r| && r[j].Encode? ensures After(s, r[..j]).phase != Rendering(0) {
        if j < |pre| { assert r[..j] == pre[..j]; } else { assert r[..j] == pre; }
      }
    }
  }

  lemma {:induction false} KeptThen(s: Sys, a: seq<Step>, b: seq<Step>, y: nat)
    requires Kept(s, a, y) && NoRows(b)
    ensures Kept(s, a + b, y)
  {
    hide After;
    assert forall j :: |a| <= j < |a + b| ==> (a + b)[j] == b[j - |a|];
    forall j | 0 <= j < |a| && a[j].Encode? ensures After(s, (a + b)[..j]).phase != Rendering(y) {
      assert (a + b)[..j] == a[..j];
    }
  }

  ghost predicate NoRows(steps: seq<Step>) {
    forall e :: e in steps ==> !e.Encode?
  }

  lemma AddingIsNoRows(base: nat, n: nat)
    requires base + n < 0x1000
    ensures NoRows(Adding(base, n))
  {
    if n > 0 { AddingIsNoRows(base, n - 1); }
  }

  lemma FailedAreNoRows(k: nat)
    ensures NoRows(FailedFrames(k))
  {
    hide Adding;
    if k > 0 { FailedAreNoRows(k - 1); AddingIsNoRows(NEW, RESET_THRESHOLD); }
  }

  lemma {:induction false} FrameEnds(s: Sys)
    requires Clean(s) && s.phase == Rendering(|s.rows|)
    ensures After(s, [EndFrame]) == s.(phase := Idle)
  {
    hide Table;
    AfterOne(s, EndFrame);
    assert Fill(s.scan.tables[0], RESET_THRESHOLD + 1, s.pal.rgb) == s.scan.tables[0];
    assert s.scan.tables[0 := s.scan.tables[0]] == s.scan.tables;
  }

  /** Between frames, k frames that failed since the last upload. */
  ghost function Failed(s: Sys, k: nat): Sys {
    if k == 0 then s else s.(pal := Pal(Table(NEW, RESET_THRESHOLD), 0, (1 + k) % 0x1_0000), resets := k)
  }

  lemma {:induction false} FailedReset(s: Sys, k: nat)
    requires Clean(s) && s.phase == Idle
    ensures After(s, FailedFrames(k)) == Failed(s, k)
  {
    hide Table, Adding, Enabled, Next, Clean;
    if k > 0 {
      FailedReset(s, k - 1);
      FailedOk(s, k - 1);
      Decoded(Failed(s, k - 1), NEW);
      AfterJoin(s, FailedFrames(k - 1), [StartFrame] + Adding(NEW, RESET_THRESHOLD));
      FailedNext(s, k);
    }
  }

  lemma {:induction false} FailedOk(s: Sys, k: nat)
    requires Clean(s) && s.phase == Idle
    ensures var t := Failed(s, k); t.phase.Idle? && PalOk(t.pal) && ScanOk(t.scan) && StartResets(t.pal)
  {
    hide Table;
  }

  lemma {:induction false} FailedNext(s: Sys, k: nat)
    requires Clean(s) && k > 0
    ensures var t := Failed(s, k - 1);
            t.(pal := Pal(Table(NEW, RESET_THRESHOLD), 0, (t.pal.gen + 1) % 0x1_0000), resets := t.resets + 1) == Failed(s, k)
  {
    hide Table;
  }

  /** The next frame begins with as many resets as the counter has values. */
  lemma {:induction false} Overwritten(s: Sys)
    requires Clean(s) && s.phase == Idle
    ensures var r := Failed(s, 0x1_0000);
            && Enabled(r, BeginFrame)
            && var t := Next(r, BeginFrame);
               t.rows == s.rows && t.want == s.want && ScanOk(t.scan) && t.scan.tables[0][1] == NEW + 1
  {
    hide Table;
  }

  /** What the program does once the first row is packed: the rest of the frame, then as many frames
      that fail to decode as the counter has values, then the next frame's start. */
  function Later(px: seq<Byte>, k: nat): (steps: seq<Step>) {
    Rows(px, k) + [EndFrame] + FailedFrames(0x1_0000) + [BeginFrame]
  }

  lemma {:induction false} LaterKeeps(s: Sys, k: nat, px: seq<Byte>)
    requires Kept(s, Rows(px, k), 0)
    ensures Kept(s, Later(px, k), 0)
  {
    hide FailedFrames, Rows, Kept;
    FailedAreNoRows(0x1_0000);
    KeptThen(s, Rows(px, k), [EndFrame], 0);
    KeptThen(s, Rows(px, k) + [EndFrame], FailedFrames(0x1_0000), 0);
    KeptThen(s, Rows(px, k) + [EndFrame] + FailedFrames(0x1_0000), [BeginFrame], 0);
  }

  lemma {:induction false} LaterShows(s: Sys, k: nat, px: seq<Byte>)
    requires Clean(s) && s.phase == Rendering(1) && 1 + k == |s.rows| == |s.want| && Ones(px)
    ensures Kept(s, Later(px, k), 0)
    ensures var t := After(s, Later(px, k)); ScanOk(t.scan) && t.scan.tables[0][1] == NEW + 1
  {
    hide FailedFrames, Rows, Kept, After, Failed, Clean, Enabled, Next;
    RowsPacked(s, k, px);
    LaterKeeps(s, k, px);
    var b := After(s, Rows(px, k));
    StillClean(s, b);
    FrameEnds(b);
    AfterJoin(s, Rows(px, k), [EndFrame]);
    var c := b.(phase := Idle);
    StillClean(b, c);
    FailedReset(c, 0x1_0000);
    AfterJoin(s, Rows(px, k) + [EndFrame], FailedFrames(0x1_0000));
    Overwritten(c);
    AfterMore(s, Rows(px, k) + [EndFrame] + FailedFrames(0x1_0000), BeginFrame);
  }

  /** The limit is reached: from start-up there is a run in which row 0 is packed in colour OLD + 1,
      then 65536 frames fill the palette and fail to decode, and when the next frame begins the row,
      which was not packed again, shows colour NEW + 1. */
  lemma {:induction false} ColoursLost(s: Sys, px: seq<Byte>) returns (first: seq<Step>, later: seq<Step>)
    requires Init(s) && |s.rows| > 0 && Ones(px)
    ensures var p := After(s, first);
            && Inv(p) && p.phase == Rendering(0) && Enabled(p, Encode(px, true)) && LookIs(p, px, OLD + 1)
            && var m := Next(p, Encode(px, true));
               var n := After(m, later);
               && Kept(m, later, 0) && ScanOk(n.scan) && |n.rows| == |s.rows| && n.rows[0] == Line(px, 0)
               && forall x :: 0 <= x < |px| ==> Shown(Packed(px, 0), n.scan.tables, |px|)[x] == NEW + 1
  {
    hide Clean, Later, Shown, Packed, Enabled, Next, Init, Kept, Inv, After, LookIs, FirstFrame;
    first, later := FirstFrame(), Later(px, |s.rows| - 1);
    InitSizes(s);
    FirstBegins(s);
    FirstInv(s);
    var p := After(s, first);
    RowPacked(p, 0, px);
    var m := Next(p, Encode(px, true));
    StillClean(p, m);
    LaterShows(m, |s.rows| - 1, px);
    RowStaysRun(m, later, 0);
    ShownIs(px, 0, After(m, later).scan.tables);
  }

  /** The first frame begins with its resets noticed. */
  lemma {:induction false} FirstInv(s: Sys)
    requires Init(s)
    ensures Inv(After(s, FirstFrame()))
  {
    hide Inv, Enabled, Next, After, FirstFrame;
    InitInv(s);
    FirstCounted(s);
    RunInv(s, FirstFrame());
  }

  lemma {:induction false} FirstCounted(s: Sys)
    requires Init(s)
    ensures Counted(s, FirstFrame())
  {
    hide After, Adding, Table, Enabled, Next;
    var a, b := [StartFrame] + Adding(OLD, RESET_THRESHOLD), FirstFrame();
    AddingBeginsNone(OLD, RESET_THRESHOLD);
    Decoded(s, OLD);
    assert forall j :: 0 <= j < |a| ==> b[j] == a[j] && !b[j].BeginFrame?;
    assert b[..|a|] == a;
  }

  lemma AddingBeginsNone(base: nat, n: nat)
    requires base + n < 0x1000
    ensures forall e :: e in Adding(base, n) ==> !e.BeginFrame?
  {
    if n > 0 { AddingBeginsNone(base, n - 1); }
  }

  lemma InitSizes(s: Sys)
    requires Init(s)
    ensures |s.rows| == |s.want|
  {
  }

  lemma StillClean(s: Sys, t: Sys)
    requires Clean(s) && t.pal == s.pal && t.scan == s.scan && t.resets == s.resets
    ensures Clean(t)
  {
  }
}
