# Streamed-kiosk firmware model

A Dafny model of a display firmware without a framebuffer, and of the network modem beside it. Vector
frames arrive over a serial link, geometry is cached in NOR flash, a band rasteriser paints rows, a
ring keeps the rows as run lengths, and a second core turns them into HSTX commands or TMDS words
while an interrupt hands them to the display. Each stage is modelled in the form it has in the
program: objects with arrays and fields where it mutates state, functions where it computes, and
transition systems where two parties interleave.

| area | modules | main results |
|---|---|---|
| line pool | `RingLayout`, `PoolRun`, `LinePool`, `LineRle` | `RunSafe`, `AllocGrants`, `ReaderUndisturbed`, `LineKeepsBytes`, `LineSink` |
| geometry store | `GeomWords`, `GeomWriter`, `NorFlash`, `GeomFlash`, `GeomRam`, `GeomBox` | `ApplyRefines`, `GetReturnsLast`, `TransferThenCut`, `WrittenBoxed`, both `Transfer` methods |
| rasteriser | `RasterMath`, `Polygon`, `PolygonExact`, `Raster` | `FillPoly`, `FillCircle`, `StrokeCircle`, `CrossingsCancel`, `InsideExact` |
| scanout | `HstxSlots`, `HstxTurn`, `HstxColours`, `HstxLine`, `HstxScanout`, `Palette` | `RunSafe`, `LineUndisturbed`, `LinesInOrder`, `ColoursSurvive`, `BeginKeepsIff` |
| line encoders | `WordRun`, `WordRunExpand`, `WordRunPairs`, `WordRunEncode`, `WordRunScanout`, `Tmds`, `TmdsLevels` | `CodecShows`, `LineShows`, `StreamSound`, `BalancedIsStateless` |
| parsers | `Json*`, `Path*`, `Http`, `HttpHead`, `HttpRules`, `HttpParser` | `TextMeans`, `AcceptedIsJson`, `ChunksAgree`, `ExactIffEight`, `PathScans`, `RecordAndReplay`, `ChunkedMessage` |
| modem link | `Frames`, `ModemLink`, `Credit`, `CrcDivision` | `AllTold`, `OnlyWholeFrames`, `FrameBurstCaught`, `RunConserves`, `NoStall` |
| known networks | `KnownNets` | `RemembersEight`, `RemembersLatest` |

Whole runs are stated over schedules: `After(state, steps)` performs the steps in order and skips one
that is not enabled when its turn comes, so a statement about every `steps` is a statement about every
interleaving. Objects are tied to these systems and to specification functions by their contracts; the
lemmas are about the specifications.

Three properties do not hold as the comments in the program suggest, and are proved exactly:

* The modem's loop spends credit with `credit -= n`, a load and a store. A grant handled by the link
  task, which has the higher priority, between the two is overwritten. Credit is lost exactly then
  (`Credit.LostOnlyInRace`), an idle transfer can go on exactly while at most half a window was lost
  (`Credit.NoStall`), and `Credit.StallReached` is a run that ends with a transfer stuck
  until its request times out.
* The colour tables recognise a palette reset by a 16-bit generation. 65536 frames that reset the
  palette and then fail to decode look like none; exactly then can a line on screen change its colours
  (`HstxColours.BeginKeepsIff`), and `HstxColours.ColoursLost` is a run that gets there. The RP2040's
  table of colour pairs has the same limit (`WordRunScanout.Scanout.Upload`).
* The fixed-point converter gives up low digits to make room for the fraction bits, which a comment
  calls harmless. It is for up to eight bits, and the callers use at most three; from nine on, for
  every number of bits, some number comes out one too small (`JsonFixedLimit.ExactIffEight`).

## Model

| member | source | states |
|---|---|---|
| RingLayout.AllocInv | src/common/linepool.c:54-77 | A request, granted or refused, changes no line and keeps the ring layout; a granted range lies inside the pool, and overlaps no published line |
| RingLayout.AllocGrants | src/common/linepool.c:54-77 | A request is granted exactly when there is a place, said by the lines alone: behind the newest line up to the end of the pool or short of the oldest one, or, when the end is too near, at 0 short of the oldest line; an empty pool grants everything smaller than itself |
| RingLayout.RoomIsClear | src/common/linepool.c:65-76 | The room test on head and tail alone already implies that the range overlaps no live line |
| RingLayout.NextLiveIsOldest | src/common/linepool.c:93-100 | When lines are committed in ring order the search after line y finds the oldest live line, and finds none exactly when none is left |
| RingLayout.FreeOldest | src/common/linepool.c:103-117 | The record being freed is always the one at the tail, and freeing it moves the tail to the oldest line left: the fallback search is never taken |
| RingLayout.CommitInv | src/common/linepool.c:119-134 | Committing a line keeps the layout: live lines oldest first from tail to head without overlap, head equal to tail only when empty; the old record of the line was the one at the tail |
| RingLayout.CommitDupInv | src/common/linepool.c:136-146 | The same for a line committed as a duplicate of the one above |
| RingLayout.LayoutDisjoint | src/common/linepool.c:8-13 | Two allocations of a laid-out ring never share a byte, wrapped or not |
| PoolRun.RunSafe | src/common/linepool.c:5-21 | Every state of every interleaving of the writer's and the reader's steps, allocations refused or not, keeps the ring layout, the bytes of every published line, and the reader's published range |
| PoolRun.ReaderUndisturbed | src/common/linepool.h:38-49 | From reader_begin to reader_done the bytes of the range the reader published stay those it was published with, even if the line is recommitted and its old record freed meanwhile |
| PoolRun.LineKeepsBytes | src/common/linepool.c:119-134 | A committed line shows the bytes written for it until the same line is committed again, whatever else happens |
| PoolRun.PublishedDisjoint | src/common/linepool.c:8-13 | In every reachable state two published lines share no byte and lie inside the pool |
| PoolRun.StepSafe | src/common/linepool.c:45-52 | Each single step of writer or reader keeps all of it; a write into a range the reader published is not enabled, which is what the guard waits for |
| PoolRun.StepLines | src/common/linepool.c:119-146 | Only a commit changes the line table, and only the entry it commits |
| PoolRun.GuardEnds | src/common/linepool.c:45-52 | The wait before a write ends exactly when what the reader published does not overlap what was allocated, at once when the reader is idle |
| PoolRun.NeverHeld | src/common/linepool.c:5-21 | Nothing but that guard ever holds a step up: in every reachable state the reader may begin any line, and the writer store anywhere in what it was given and commit any part of it |
| LinePool.LinePool.constructor | src/common/linepool.c:30-39 | An empty ring and a table without lines |
| LinePool.LinePool.FrameBegin | src/common/linepool.c:41 | Only the byte count of the frame starts over |
| LinePool.LinePool.Alloc | src/common/linepool.c:54-77 | The object grants and refuses as the specified ring does, so exactly when there is a place, and counts refusals |
| LinePool.LinePool.OldestLiveOff | src/common/linepool.c:81-90 | The live line farthest behind the head |
| LinePool.LinePool.NextLiveOff | src/common/linepool.c:93-100 | The first live line met going round from y |
| LinePool.LinePool.FreeOld | src/common/linepool.c:103-117 | Tail and live count after a record is released, as specified |
| LinePool.LinePool.Commit | src/common/linepool.c:119-134 | The object after a commit is the specified ring |
| LinePool.LinePool.CommitDup | src/common/linepool.c:136-146 | The object after a duplicate is the specified ring |
| LinePool.LinePool.LineSink | src/pico/kiosk_loop.c:150-160 | Handing over row y stores it exactly when it has bytes and there is a place for them; y then shows exactly those bytes, and otherwise repeats the row above; record and bytes of any other row stay |
| LineRle.EncodeLine | src/common/linepool.c:148-161 | The spans written decode to the line and are the fewest bytes any span list needs; 0 only when no list fits in max |
| LineRle.DecodeLine | src/common/linepool.c:163-172 | Exactly width pixels, those of the spans, cut at the width and padded with 0; nothing past them is touched |
| LineRle.DecodesEncoded | src/common/linepool.c:148-172 | What was encoded is what is decoded |
| GeomWords.TrailerRoundTrip | src/common/geom_common.c:108-114 | A record trailer written is the trailer read back, signs included |
| GeomWords.ExtentsTight | src/common/geom_common.c:159-182 | The box of a polygon contains every clamped vertex, and each of its sides touches one |
| GeomWords.PairIs | src/common/geom_common.c:159-182 | A vertex lies in its word as two's complement halves, x the lower one |
| GeomBox.PolyBoxTight | src/common/geom_common.c:184-199 | The box of a finished polygon is, in whole pixels, the floor of the least and the ceiling of the greatest clamped coordinate |
| GeomBox.PolyBoxed | src/common/raster.c:329-352 | Every pixel the fill rule paints for the stored words of a polygon lies in its box, so dropping a record whose box misses the band drops no pixel |
| GeomBox.CircleBoxTight | src/common/geom_common.c:116-135 | The box of a circle is the floor of centre less radius and the ceiling of centre plus radius, as far as 16 bits go, and its words are centre and radius |
| GeomBox.CircleBoxed | src/common/frame.c:890-930 | Every pixel of a screen that lies in a stored circle lies in its box |
| GeomBox.WrittenBoxed | src/common/frame.c:890-930 | Whatever calls built a set, no polygon or circle in it paints outside its own box |
| GeomWords.GetStored | src/common/geom_common.c:58-73 | A well-formed record is found wherever it lies and is indexed |
| GeomWords.GetOnlyStored | src/common/geom_common.c:58-73 | Nothing else is found: an answer lies whole and aligned where the index says, inside the data |
| GeomWords.Get | src/common/geom_common.c:58-73 | Whatever the index and memory hold, an answer is a well-formed record of the id asked for, read only from the data range |
| GeomWriter.PutAppends | src/common/geom_common.c:93-104 | Buffered words are all queued in order, or refused only for lack of room, and what the backend had is never damaged |
| GeomWriter.FinishAppends | src/common/geom_common.c:108-114 | A record is accepted exactly when all of it fits, and only then indexed |
| GeomWriter.ApplyRefines | src/common/geom_common.c:84-199 | Every call, successful, refused for its arguments or out of space part-way, keeps the store the faithful image of a plain map from ids to finished records |
| GeomWriter.AddWholeRefines | src/common/geom_common.c:116-141 | A circle or group enters the map exactly when it fits whole |
| GeomWriter.AddVertexBuilds | src/common/geom_common.c:159-182 | Marker and clamped vertex follow the polygon's earlier words, or the polygon is marked failed |
| GeomWriter.EndPolyRefines | src/common/geom_common.c:184-199 | A polygon enters the map with its break markers, count and rounded box exactly when no append failed and its trailer fits |
| GeomWriter.PolyFits | src/common/geom_common.c:184-199 | It fits exactly when its words and trailer fit behind what was there before |
| GeomWriter.GetReturnsLast | src/common/geom_common.c:58-73 | A reader of the finished log finds for every id the last record finished for it, and nothing for any other id |
| GeomWriter.CallAlike | src/common/geom_common.c:12-27 | What a call returns and stores never depends on what the previous set left in the record structure |
| GeomWriter.CountBounded | src/common/geom_common.c:108-114 | The definition count is the number of ids, and never exceeds the index |
| NorFlash.ProgramBlank | src/pico/flash_store.c:289-293 | Programming erased words stores exactly the data: AND with all ones |
| NorFlash.AndAt | src/pico/flash_store.c:289-293 | A bit is one after programming exactly when it was one and is programmed as one |
| NorFlash.CrcAppend | src/pico/flash_store.c:71-80 | The CRC of pieces taken one after the other is the CRC of the whole |
| NorFlash.Crc32Update | src/pico/flash_store.c:71-80 | The loop computes the reflected CRC-32 of IEEE 802.3 |
| NorFlash.BytesAt | src/common/geom_flash.c:68-83 | A word's bytes go into the CRC lowest first |
| CrcDivision.DataCrcDivides | src/pico/flash_store.c:71-80 | The CRC, reversed and inverted, is the remainder of the text, as a polynomial over GF(2) with lowest bits first, by IEEE 802.3's polynomial of degree 32, and no other word is |
| CrcDivision.DataBurstCaught | src/common/geom_flash.c:164-183 | Four bytes in a row of a set's data changed in any way never leave its CRC right |
| NorFlash.HeaderRoundTrip | src/common/geom_flash.c:111-131 | A header read back from the words that were programmed is the header that was built, across its pages |
| GeomFlash.CompleteBoots | src/common/geom_flash.c:164-183 | A whole header over data that is in place boots into that set, CRC included |
| GeomFlash.CompleteLooks | src/common/geom_common.c:58-73 | After a reset the committed set answers every id with the last record finished for it |
| GeomFlash.GeomStore.FlashErase | src/pico/flash_store.c:330-343 | Sector by sector; every intermediate image is kept in the history |
| GeomFlash.GeomStore.EnsureErased | src/common/geom_flash.c:50-57 | The erase frontier moves past the requested end without touching anything written |
| GeomFlash.GeomStore.FlushPage | src/common/geom_flash.c:59-66 | A full page lands in erased flash, is programmed once, and exposes no set |
| GeomFlash.GeomStore.FlashAppend | src/common/geom_flash.c:68-83 | An append is all or nothing, in order, with the running CRC and length of everything appended |
| GeomFlash.GeomStore.FlushBuf | src/common/geom_common.c:84-90 | The object flushes as the specified writer does |
| GeomFlash.GeomStore.Put | src/common/geom_common.c:93-104 | The object queues as the specified writer does, exposing no set on the way |
| GeomFlash.GeomStore.FinishRecord | src/common/geom_common.c:108-114 | The object finishes a record as specified |
| GeomFlash.GeomStore.AddCircle | src/common/geom_common.c:116-132 | Same result and state as the specified call; the map gains the circle exactly when it returns true |
| GeomFlash.GeomStore.AddGroup | src/common/geom_common.c:134-141 | The same for a group |
| GeomFlash.GeomStore.BeginPoly | src/common/geom_common.c:143-151 | The same for opening a polygon; the flash is not touched |
| GeomFlash.GeomStore.AddVertex | src/common/geom_common.c:159-182 | The same for a vertex |
| GeomFlash.GeomStore.EndPoly | src/common/geom_common.c:184-199 | The same for closing a polygon |
| GeomFlash.GeomStore.Begin | src/common/geom_flash.c:92-104 | The old set dies with the first header sector: every image from there on holds no set |
| GeomFlash.GeomStore.Abort | src/common/geom_flash.c:106-108 | Nothing is programmed or erased |
| GeomFlash.GeomStore.ProgramHeader | src/common/geom_flash.c:146-153 | Header pages from the last to the first: no image before the very last shows a set, and each page is programmed once |
| GeomFlash.GeomStore.Commit | src/common/geom_flash.c:133-161 | Succeeds exactly for a set with an id and no open polygon; of the images on the way only the last holds a set, and it is the whole new one, which is then open |
| GeomFlash.GeomStore.LoadHeader | src/common/geom_flash.c:164-183 | Accepts exactly the images that boot, whether or not the CRC was taken earlier, and takes over that set's fields |
| GeomFlash.GeomStore.Open | src/common/geom_flash.c:185-191 | True exactly for the id and resolution of the set in flash, and what is read from then on is that set; a set already present is not read again; never while one is being written |
| GeomFlash.StoredIdIs | src/common/geom_common.c:6-10 | A stored id is asked for by exactly the string that was stored, cut to 31 characters, whatever the field held before |
| GeomFlash.GeomStore.GetRecord | src/common/geom_common.c:58-73 | While open, exactly what the set in flash answers for the id; nothing while closed |
| GeomFlash.GeomStore.Reboot | src/common/geom_flash.c:195-198 | The flash is all that survives |
| GeomFlash.GeomStore.constructor | src/common/geom_flash.c:87-90 | Power on over any flash contents: nothing present, nothing open |
| GeomFlash.GeomStore.FlashProgram | src/pico/flash_store.c:345-358 | One page into flash that must be unprogrammed since its last erase: nothing else programs |
| GeomFlash.GeomStore.SetId | src/common/geom_common.c:37-39 | The set being written takes the id, cut to fit; at any other time nothing changes |
| GeomFlash.GeomStore.SetResolution | src/common/geom_common.c:41-44 | An open set stays open exactly when its resolution suits; the set being written and the one in flash are untouched |
| GeomFlash.GeomStore.Transfer | src/common/geom_flash.c:92-162 | A whole replacement under any calls, committed, aborted for its id or left open: images before it are untouched, every later one but the last boots into no set, the last boots into the new set at the device's resolution, which is then open, and answers every id with the last record those calls finished; no page is programmed twice without an erase |
| GeomFlash.GeomStore.TransferThenCut | src/common/geom_flash.c:92-193 | With a power cut at any of those images, a reboot, a resolution, an open and a read: nothing, what the old set answered, or, once the commit is through, the last record the calls finished; open exactly for the id and resolution of the set in that image |
| GeomFlash.CutExposes | src/common/geom_flash.c:92-193 | An image on the way that a set can be read from is the first or the last |
| GeomRam.RamStore.constructor | src/common/geom_ram.c:24-34 | Two buffers of the given capacity and nothing on show |
| GeomRam.RamStore.Append | src/common/geom_ram.c:15-20 | All or nothing, refused exactly when it does not fit |
| GeomRam.RamStore.Put | src/common/geom_common.c:93-104 | The words go to the spare buffer, one append for each flush, as the specified writer queues them |
| GeomRam.RamStore.FinishRecord | src/common/geom_common.c:108-114 | The record is finished as specified, the spare buffer holding every accepted word |
| GeomRam.RamStore.Do | src/common/geom_common.c:84-199 | The same writer over memory: same result, same map, and the set on show untouched |
| GeomRam.RamStore.Begin | src/common/geom_ram.c:36-39 | Refused while a set is being written; the set on show stays |
| GeomRam.RamStore.Commit | src/common/geom_ram.c:41-58 | The buffers trade places exactly for a set with an id and no open polygon; otherwise the old set stays on show |
| GeomRam.RamStore.Abort | src/common/geom_ram.c:60-62 | The new set is forgotten, the one on show keeps its records |
| GeomRam.RamStore.SetId | src/common/geom_common.c:37-39 | The same as for the device |
| GeomRam.RamStore.SetResolution | src/common/geom_common.c:41-44 | The same as for the device |
| GeomRam.RamStore.Open | src/common/geom_ram.c:64-68 | True exactly for the id and resolution of the set that is present |
| GeomRam.RamStore.GetRecord | src/common/geom_common.c:58-73 | The last record finished for the id in the set on show, at any time, also while another set streams in |
| GeomRam.RamStore.Transfer | src/common/geom_ram.c:36-62 | After any calls the store shows either the old set or exactly the records those calls finished |
| GeomRam.CallExtends | src/common/geom_ram.c:15-20 | No call changes a word the backend has accepted |
| RasterMath.Isqrt64 | src/common/raster.c:29-38 | The floor of the square root for every 64-bit value |
| RasterMath.PxFirstIsFirst | src/common/raster.c:23 | The first pixel whose centre is at or after a coordinate, negative ones too |
| Polygon.CrossingsCancel | src/common/raster.c:262-277 | For any vertex stream, markers anywhere, the signed crossings of every row sum to zero, so every span that opens closes |
| Polygon.RowListWinds | src/common/raster.c:228-258 | The list of clamped, packed crossings of a row gives at every centre in range the winding number of the edges |
| Polygon.SortKeeps | src/common/raster.c:300-307 | Sorting changes no winding number |
| Polygon.SortSorts | src/common/raster.c:300-307 | The result is ordered and a permutation |
| Polygon.SweepStep | src/common/raster.c:332-350 | One crossing of the sweep paints a centre exactly when it was unpainted and is inside |
| Polygon.SweepEnds | src/common/raster.c:332-350 | At the end of a row no span is open and every centre is settled |
| Polygon.TooFew | src/common/raster.c:329-352 | Fewer than three vertices enclose nothing |
| PolygonExact.FixedNear | src/common/raster.c:241-252 | A crossing taken in 16.16 lies between the exact one and the upper end of the edge, less than one unit of 2^-16 away for each row since |
| PolygonExact.CrossingSide | src/common/raster.c:241-254 | A centre the edge passes by no less than that is on the side of it that the exact line says; by a vertical edge every centre is |
| PolygonExact.CrossesCentre | src/common/raster.c:236-240 | An edge crosses exactly the rows whose centres lie at or below its upper end and above its lower one |
| PolygonExact.EdgesAreLoops | src/common/raster.c:262-277 | The edges walked are the closed loops of the stream's contours, cut at its markers |
| PolygonExact.WindingExact | src/common/raster.c:228-258 | At every centre no edge passes that closely the winding number counts the edges, by their own end points, whose rows span the centre and whose exact line runs at or left of it |
| PolygonExact.InsideExact | src/common/raster.c:329-352 | A pixel is filled exactly when its centre is inside the contours themselves by the fill rule, unless an edge passes the centre that closely |
| Raster.Raster.BeginBand | src/common/raster.c:58-64 | The rows of the band are cleared to the background |
| Raster.Raster.SetClip | src/common/raster.c:66-73 | The clip is the box given, cut to the screen |
| Raster.Raster.Span | src/common/raster.c:111-121 | Exactly the pixels of the span in band and clip change, once |
| Raster.Raster.FillCircle | src/common/raster.c:166-181 | A pixel of band and clip changes, once, exactly when the squared distance of its centre is at most r squared: the same for every split into bands |
| Raster.Raster.StrokeCircle | src/common/raster.c:183-208 | Exactly the pixels within the outer and outside the inner circle; a full disc when there is no inner one |
| Raster.Raster.WalkEdge | src/common/raster.c:228-258 | Incremental 16.16 stepping gives every row of the band the crossing the edge and the row alone determine |
| Raster.Raster.WalkStream | src/common/raster.c:262-277 | Every row holds exactly the kept crossings of every edge, contours closed |
| Raster.Raster.SortCrossings | src/common/raster.c:300-307 | The insertion sort in place is the specified sort and touches nothing else |
| Raster.Raster.SweepRow | src/common/raster.c:332-350 | The centres the row's crossings fill change, once each |
| Raster.Raster.FillPoly | src/common/raster.c:329-352 | In every row without dropped crossings a pixel of band and clip changes, once, exactly when the winding at its centre satisfies the fill rule: a definition that does not mention the band |
| Palette.AddsTwice | src/common/palette.c:122-145 | Asking for a colour again changes nothing and gives the same index |
| Palette.AnswerStays | src/common/palette.c:122-145 | An index once given keeps its colour and stays the answer, whatever is added later, until the reset |
| Palette.FreshStays | src/common/palette.c:149-176 | A cached blend stays what the palette would answer while it only grows |
| Palette.DistanceIs | src/common/palette.c:131-144 | The distance of two colours is their squared distance in red, green and blue |
| Palette.MixNear | src/common/palette.c:147-177 | Each channel of a mix is to the nearest step what lies that part of the way between the two colours, and the weight is the level to the nearest 32 |
| Palette.BlendShown | src/common/palette.c:147-177 | The entry a blend is given shows the true blend at its level to within 17 of 256 steps in every channel, unless the palette is full |
| Palette.Palette.Reset | src/common/palette.c:9-12 | Empty, with the next generation number |
| Palette.Palette.FindExact | src/common/palette.c:24-28 | The first entry equal to the colour |
| Palette.Palette.FindNearest | src/common/palette.c:131-144 | The first entry no other is closer than |
| Palette.Palette.Add | src/common/palette.c:122-145 | The entry itself, a new last entry, or the nearest once full; entries never move |
| Palette.Palette.Blend | src/common/palette.c:147-177 | The ring cache never changes an answer: the index is the one the mix would be given without it |
| HstxLine.ExpandRuns | src/pico/hstx_line.c:69-83 | Expanding the runs gives the pixels back |
| HstxLine.RunsShortest | src/pico/hstx_line.c:69-83 | No run list for the same pixels is shorter |
| HstxLine.PackLine | src/pico/hstx_line.c:69-83 | The table byte and the runs, 0 exactly when no run list would fit |
| HstxLine.ActiveLinePacked | src/pico/hstx_line.c:85-107 | The line prefix and exactly h_active pixels, each in its index's colour of the named table, black past the runs; 0 exactly when the runs needed do not fit |
| HstxLine.PackedShown | src/pico/hstx_line.c:69-107 | Packing then expanding shows every pixel in the colour the table gives its index |
| HstxSlots.InitGood | src/pico/scanout_hstx.c:58-69 | The state at start-up satisfies the invariant |
| HstxSlots.InterruptGood | src/pico/scanout_hstx.c:206-247 | An interrupt at any moment keeps it: the posted slots are the two channels' own and differ |
| HstxSlots.InterruptSends | src/pico/scanout_hstx.c:206-247 | What an interrupt sends is what the scanline demands: sync, blanking, the whole line built for exactly that row, or black exactly when no slot has it ready |
| HstxSlots.StepGood | src/pico/scanout_hstx.c:275-313 | Every step of either party keeps the invariant, and core 1 writes free slots only |
| HstxSlots.After | src/pico/scanout_hstx.c:206-312 | Every state of every interleaving satisfies the invariant |
| HstxSlots.RunSafe | src/pico/scanout_hstx.c:206-312 | Under every interleaving from start-up: posted slots are the channels' own, no two slots in use hold the same row, every slot in use holds a whole line, and core 1's next write is to a free slot |
| HstxSlots.LineUndisturbed | src/pico/scanout_hstx.c:206-247 | A channel given a line sends exactly that line: nothing either party does before its next interrupt changes its slot, length or words |
| HstxSlots.FreeSlotWrite | src/pico/scanout_hstx.c:249-273 | Writing a free slot disturbs no line in use |
| HstxTurn.LinesInOrder | src/pico/scanout_hstx.c:206-247 | Under every interleaving the n-th interrupt takes scanline n + 2 of the frame, round and round without leaving one out, on the two channels by turns |
| HstxTurn.StaleIff | src/pico/scanout_hstx.c:275-313 | A line is stale exactly when its scanline is not among the next eight |
| HstxTurn.FirstMissingPicked | src/pico/scanout_hstx.c:275-313 | Left alone, core 1 picks the row of the first active scanline ahead of the beam that no slot holds, and none only when none is missing |
| HstxTurn.FreeTaken | src/pico/scanout_hstx.c:275-313 | It then takes the first free slot, and gives up only when there is none |
| HstxTurn.LineBuilt | src/pico/scanout_hstx.c:249-273 | A line decided on ends up whole in its slot, ready for its row, and no other slot has changed |
| HstxColours.InitInv | src/pico/scanout_hstx.c:60-69 | Start-up satisfies the colour invariant |
| HstxColours.GrownAdds | src/common/palette.c:122-145 | The table after a colour was asked for is the one palette_add leaves |
| HstxColours.StartedOk | src/common/frame.c:805-806 | The decoder's start leaves a palette with the background in entry 0 and no colour twice, and counts as a reset exactly when more than 208 entries were in it |
| HstxColours.UploadTracks | src/pico/scanout_hstx.c:183-195 | After an upload the generation recorded is the palette's, and the table in use agrees with it |
| HstxColours.UploadTables | src/pico/scanout_hstx.c:183-195 | The table flips exactly when the palette was reset since the last upload |
| HstxColours.UploadRows | src/pico/scanout_hstx.c:183-195 | An upload leaves every published row's colours as they are |
| HstxColours.EncodeInv | src/pico/scanout_hstx.c:197-202 | Packing a row, with the upload before it, keeps every row's colours |
| HstxColours.StepInv | src/pico/kiosk_loop.c:162-184 | Every step of a frame keeps every row's colours, unless a frame begins with resets gone unnoticed |
| HstxColours.RunInv | src/pico/kiosk_loop.c:162-184 | Every state of every sequence of frames, resets and new colours satisfies the colour invariant, as long as no frame begins with resets gone unnoticed |
| HstxColours.ColoursSurvive | src/pico/scanout_hstx.c:183-202 | A row shows exactly the colours its indices had when it was packed until it is packed again, across any growth of the palette and any resets between frames, as long as no frame begins with resets gone unnoticed |
| HstxColours.ResetLimit | src/pico/scanout_hstx.c:183-195 | An upload after resets changes a shown line exactly when their number is a multiple of 65536 and the new colours do not happen to agree |
| HstxColours.BeginKeepsIff | src/pico/scanout_hstx.c:183-195 | In every reachable state the start of a frame keeps a row's colours if and only if the resets since the last upload are noticed or the new palette agrees |
| HstxColours.ColoursLost | src/pico/kiosk_loop.c:322-410 | The limit is reached: from start-up there is a run in which a row packed at index 1 shows colour 1, then 65536 frames each fill the palette with 209 distinct colours and fail to decode, and when the next frame begins the row, not packed again, shows colour 0x401 |
| HstxScanout.SlotTable.constructor | src/pico/scanout_hstx.c:58-69 | All slots free |
| HstxScanout.SlotTable.FindReadySlot | src/pico/scanout_hstx.c:226-230 | The first ready slot that holds the row |
| HstxScanout.SlotTable.ReleaseChannel | src/pico/scanout_hstx.c:211-215 | The finished channel's slot, and no other, is free again |
| HstxScanout.SlotTable.PostScanline | src/pico/scanout_hstx.c:217-246 | The arrays end in the protocol's own step |
| HstxScanout.SlotTable.DmaIrq | src/pico/scanout_hstx.c:206-247 | The interrupt on the arrays is the protocol's interrupt |
| HstxScanout.SlotTable.Prune | src/pico/scanout_hstx.c:287-291 | Lines for scanlines the beam has passed are freed, the rest keep their state |
| HstxScanout.ColourTables.UploadPalette | src/pico/scanout_hstx.c:183-195 | The two arrays after an upload are the specified tables |
| HstxScanout.ColourTables.EncodeLine | src/pico/scanout_hstx.c:197-202 | Upload first, then the line is packed against the table in use |
| HstxScanout.BuildLine | src/pico/scanout_hstx.c:249-273 | A slot receives the row's own colours, or those of the row it repeats, or black exactly when the runs do not fit: never a partial line |
| WordRun.LineOfDecoded | src/pico/tmds_wr.c:106-146 | On a well-formed stream the expander shows the stream's ids, cut or padded to the line |
| WordRunExpand.ExpandLine | src/pico/tmds_wr.c:106-146 | Any bytes at all fill exactly width/2 words of each lane, each from the table |
| WordRunPairs.EmptySlot | src/pico/tmds_wr.c:40-56 | The hash always has an empty slot, so every probe ends |
| WordRunPairs.Absent | src/pico/tmds_wr.c:40-56 | An empty slot met before the key proves the key absent |
| WordRunPairs.Reached | src/pico/tmds_wr.c:40-56 | A key that is there is met before any empty slot |
| WordRunPairs.Inserted | src/pico/tmds_wr.c:40-56 | Filling the slot the probe stopped at keeps every pair findable |
| WordRunPairs.IdStays | src/pico/tmds_wr.c:40-56 | The id a pair is given is the id it keeps |
| WordRunEncode.IdsDiffer | src/pico/tmds_wr.c:40-56 | Two pairs with ids of their own never share one |
| WordRunEncode.Encoder.constructor | src/pico/tmds_wr.c:20-27 | Every id is black and there are no pairs |
| WordRunEncode.Encoder.SetColour | src/pico/tmds_wr.c:34-38 | Each lane gets the symbol of its component's nearest balanced level, blue first; only the colour's own words change, so every id stays right unless a pair uses the colour |
| WordRunEncode.Encoder.ResetPairs | src/pico/tmds_wr.c:29-32 | The mixed pairs are forgotten, plain ids stay |
| WordRunEncode.Encoder.Probe | src/pico/tmds_wr.c:42-49 | Ends at the slot with the key or the first empty one |
| WordRunEncode.Encoder.PairId | src/pico/tmds_wr.c:40-56 | The id the pair has or is given now, or the left pixel's own once all are taken; table and hash stay consistent |
| WordRunEncode.PlainRun | src/pico/tmds_wr.c:64-76 | The run of plain words is measured exactly, to the cap |
| WordRunEncode.LiteralEnd | src/pico/tmds_wr.c:64-104 | A literal block ends at the next long run or the end of the line |
| WordRunEncode.Encoder.LineFromPixels | src/pico/tmds_wr.c:58-98 | The tokens decode to exactly the ids of the line's words, which will not change; their number of bytes is exact, and 0 is returned exactly when it is more than max or there is no word |
| WordRunEncode.CodecShows | src/pico/tmds_wr.c:58-146 | Encoding then expanding gives in every lane the symbols of both pixels of every word; only once all pair ids are taken may a word show its left pixel twice |
| WordRunEncode.TableRecoloured | src/pico/tmds_wr.c:34-38 | Replacing a colour no pair uses leaves every other id right |
| WordRunScanout.Scanout.FrameBegin | src/pico/scanout.c:71-73 | At least half of the pair ids are free at the start of a frame; fewer pairs than that are kept |
| WordRunScanout.Scanout.AddEntry | src/common/palette.c:122-130 | A new palette entry disturbs nothing the scanout remembers |
| WordRunScanout.Scanout.ResetPalette | src/common/palette.c:9-12 | A palette reset disturbs nothing the scanout remembers; the next upload has to notice it |
| WordRunScanout.Scanout.Upload | src/pico/scanout.c:75-86 | Every entry has its colour's symbols; the pairs' words are right afterwards if and only if generation or count tell of the resets since the last upload, there were no pairs, or none used an entry whose colour changed |
| WordRunScanout.Scanout.EncodeLine | src/pico/scanout.c:88-95 | While rendering, new entries reach the encoder first; the tokens decode to ids whose words have the palette's colours, and are refused exactly when they do not fit |
| WordRunScanout.CurrentIff | src/pico/scanout.c:74-85 | After recolouring every entry the word table is right if and only if no pair uses an entry whose colour changed |
| WordRunScanout.LineShows | src/pico/scanout.c:71-95 | A line packed from a palette, shown after palette and pairs have grown: every lane of every word holds the level symbols of its two pixels' colours in that palette; only a pair first met once all 256 ids were taken shows its left pixel twice |
| WordRunScanout.LiteralIsOffset | src/pico/tmds_wr.h:10-16 | A literal token is its entry's offset in bytes |
| Tmds.DecodeEncode | src/common/tmds.c:80-90 | Every symbol decodes to its byte, whatever the counter was |
| Tmds.EncodeCounts | src/common/tmds.c:45-72 | The counter moves by exactly the ones less zeros of the symbol |
| Tmds.EncodeBounded | src/common/tmds.c:45-72 | The counter stays within eight either way |
| Tmds.FewTransitions | src/common/tmds.c:45-72 | Within its eight bits a symbol changes at most three times; the chain not chosen would at least four times |
| Tmds.BalancedIsStateless | src/common/tmds.c:74-78 | A byte has one symbol that leaves the counter alone, whatever the counter, if and only if it is balanced |
| TmdsLevels.LevelsAreBalanced | src/common/tmds.c:6-10 | The 52 levels of the table are exactly the balanced bytes |
| TmdsLevels.NearestIsNearest | src/common/tmds.c:12-33 | The nearest-level table gives a level none is nearer than, the upper of two equally near |
| TmdsLevels.IsBalancedIff | src/common/tmds.c:34 | The test for balance holds exactly for balanced bytes |
| TmdsLevels.LevelSymbolStateless | src/common/tmds.c:74-78 | A component's symbol is its level's whatever was sent before, leaves the counter alone and decodes to the level |
| Tmds.StreamSound | src/common/tmds.c:43-90 | For every stream of bytes: each symbol decodes, the counter is the ones sent less the zeros sent, never past eight |
| Tmds.EncodeByte | src/common/tmds.c:45-72 | The loop over bits is the encoder of figure 3-5 of DVI 1.0 |
| Tmds.DecodeSymbol | src/common/tmds.c:80-90 | The shifts and masks are the decoder |
| Tmds.CountOnes | src/common/tmds.c:36-40 | The number of ones |
| Json.RunSplit | src/common/json.c:186-329 | Cutting the text anywhere changes nothing: feeding the pieces is feeding the whole |
| Json.RunStuck | src/common/json.c:186-329 | After an error or the end no input changes anything |
| JsonValue.TextMeans | src/common/json.c:186-329 | Every value of at most twelve nested containers, written with any whitespace and escapes, is accepted, and what is told is the value: every scalar, bracket and key in order, each in its containers, at its place and under its key |
| JsonValue.ValueRun | src/common/json.c:299-321 | The same for a value anywhere inside a text: told in the context it lies in, and the context is restored behind it |
| JsonLanguage.RunTaken | src/common/json.c:186-329 | Whatever the tokenizer has taken without an error is the beginning of a written value, byte for byte |
| JsonLanguage.AcceptedIsJson | src/common/json.c:331-338 | What it accepts is a written value of at most twelve nested containers, with whitespace before it; behind it nothing is looked at |
| JsonStream.Stream.Feed | src/common/json.c:186-329 | However the bytes are chunked, the object ends as the byte machine does and has told the same, string chunks cut into bytes; when the callback refuses an event, that is the last one told, the stream is in error, and what was told is a front of the same events |
| JsonStream.Stream.Tell | src/common/json.c:38-41 | The event is told; refused, it fails the parse |
| JsonStream.Stream.TakeString | src/common/json.c:197-228 | A run of plain bytes handed over at once says no more than its bytes one by one |
| JsonStream.Stream.TakeNumber | src/common/json.c:263-269 | A number byte is taken, or the number ends and the byte is processed again in the next state |
| JsonStream.Stream.StopUescape | src/common/json.c:164-177 | The escape becomes UTF-8, half of a pair is kept, a lone half is replaced |
| JsonStream.Stream.Finish | src/common/json.c:331-338 | Accepts exactly complete texts, ending a top-level number; never after a refusal |
| JsonStream.ChunksAgree | src/common/json.c:186-338 | Two chunkings of one text end in the same state and tell the same keys, numbers, literals and brackets, with the same depth, key and index, and strings of the same bytes |
| JsonText.Utf8Back | src/common/json.c:55-68 | The UTF-8 of a code point decodes to it, in one to four bytes as its range demands |
| JsonText.PairCovers | src/common/json.c:164-177 | Surrogate pairs and code points past FFFF correspond one to one |
| JsonText.OneEscape | src/common/json.c:164-177 | An escape hands on exactly its four digits' value |
| JsonText.EscapedPair | src/common/json.c:164-176 | Two escapes that make a pair send the one character in UTF-8, wherever the text is cut |
| JsonText.LoneSurrogate | src/common/json.c:164-177 | A low surrogate with nothing waiting becomes U+FFFD |
| JsonText.HighThenByte | src/common/json.c:197-228 | A high surrogate before anything but an escape, the closing quote included, becomes U+FFFD and what follows is read as if nothing had waited |
| JsonText.HighThenSimple | src/common/json.c:230-249 | The same before a simple escape |
| JsonText.HighThenEscape | src/common/json.c:164-177 | The same before an escape that is no low surrogate; another high one then waits itself |
| JsonNumber.AutomatonIsGrammar | src/common/json.c:128-155 | The texts the number automaton accepts are exactly the numbers of RFC 8259, section 6 |
| JsonNumber.NumbersReported | src/common/json.c:130-134 | Every number ever told of a text, while it is fed and when it ends, is one of the grammar of at most 31 bytes |
| JsonFixed.ParseDec | src/common/json.c:350-387 | Accepts exactly the numbers of the grammar, and its mantissa, exponent and sticky flag stand for the text |
| JsonFixed.CutHarmless | src/common/json.c:350-432 | With up to eight fraction bits neither digits past the eighteenth nor those given up to make room change the result |
| JsonFixed.ExactToEight | src/common/json.c:401-432 | With up to eight fraction bits the result is exact for every text |
| JsonFixedLimit.InexactFromNine | src/common/json.c:407-411 | For each of 9 to 30 fraction bits there is a number of at most 31 characters whose result is one too small |
| JsonFixedLimit.ExactIffEight | src/common/json.c:396-432 | Exact for every number the tokenizer can report if and only if at most eight fraction bits are asked for |
| JsonFixed.HalfUpNearest | src/common/json.c:396-432 | The rounding is to the nearest integer, upward only from exactly half |
| JsonFixed.FarOut | src/common/json.c:401-432 | Exponents far out all saturate or all round to zero, so clamping them is exact |
| JsonFixed.ParsedComputes | src/common/json.c:350-432 | The parsed mantissa and clamped exponent give the same result as the text's exact value does, digits cut |
| JsonFixed.FoldRoom | src/common/json.c:407-411 | The loop makes room as specified, and the shifted mantissa fits 64 bits |
| JsonFixed.ScaleUp | src/common/json.c:412-419 | Multiplying up gives the exact product, or gives up only past 32 bits |
| JsonFixed.RoundedQuotient | src/common/json.c:420-431 | The 64-bit division with its remainder test rounds as the exact quotient does |
| JsonFixed.ToFixed | src/common/json.c:401-432 | For up to eight fraction bits, callers use none or three: the value times 2^bits, rounded half away from zero and saturated to 32 bits, for every number of up to 9000 characters; for more bits the result with digits cut; refused exactly for texts that are no number |
| Path.RunShaped | src/common/path.c:102-172 | However long the text, the tokens told are whole commands and at most one begun, repeated and implicit commands included |
| Path.CmdShaped | src/common/path.c:135-172 | A command letter starts a group once the one before it is whole |
| PathText.Alphabet | src/common/path.c:85-95 | The command letters and how many arguments each takes, and the bytes that separate |
| PathNumber.ParseIs | src/common/path.c:51-80 | A number text means its sign and decimal value, to nine significant digits; it is compact exactly when nothing was dropped, it has no exponent and at most two decimals |
| PathText.PathScans | src/common/path.c:135-174 | Commands written out, with any separators and none where the next byte allows, arc flags run together, argument lists that go on, are read as exactly those commands and numbers; a move that goes on is a line |
| PathText.PointsScan | src/common/path.c:135-174 | A points attribute is a move and lines |
| PathRules.NumbersSpelled | src/common/path.c:102-119 | Every number told of any text is the reading of a text spelled as a number, an exponent with its digits |
| PathRules.StrayRefused | src/common/path.c:112-172 | A byte that belongs nowhere is an error and never passed over |
| PathRules.UnfinishedRefused | src/common/path.c:177-189 | At the end a last command with some of its arguments but not all is refused, except in a points attribute |
| PathRecord.TakeEnc | src/common/path.c:216-232 | A number stored as a decimal or as its float reads back as the very same float |
| PathRecord.EncShortest | src/common/path.c:216-232 | No other way to write the same decimal takes fewer bytes, as long as equal decimals are equal floats |
| PathRecord.ReplayRecording | src/common/path.c:484-513 | Replaying stored commands executes all of them in order, then whatever follows |
| PathRecord.ReplayIsDirect | src/common/path.c:199-274 | A finished recording replays to exactly the commands of a direct feed, with equal arguments |
| PathEnds.Recorder.Put | src/common/path.c:199-204 | All or nothing; once refused, the recording has failed |
| PathEnds.Recorder.Feed | src/common/path.c:242-244 | However cut, the buffer holds exactly the encoded tokens of the text so far, unless they do not fit |
| PathEnds.Recorder.Finish | src/common/path.c:253-274 | A trailing bare letter or odd coordinate is taken back out, a points attribute is closed; refused exactly for malformed or unfitting texts |
| PathFlatten.Flattener.Take | src/common/path.c:453-467 | A command is executed with its last argument, or at once if it takes none |
| PathFlatten.Flattener.Feed | src/common/path.c:469-471 | Every whole command of the text so far is executed once, in order |
| PathFlatten.Flattener.Finish | src/common/path.c:478-482 | The direct feed is closed as the recording is |
| PathFlatten.Flattener.ReplayAll | src/common/path.c:484-513 | The loop over the recording executes what the recording stands for, and refuses a cut one |
| PathReplay.FeedJoin | src/common/path.c:135-174 | Feeding in two pieces is feeding the whole |
| PathReplay.RecordChunks | src/common/path.c:253-274 | A recording is accepted exactly when the text is well formed and fits, and then holds its whole commands |
| PathReplay.FlattenChunks | src/common/path.c:469-471 | A direct feed in any chunks executes the text's whole commands |
| PathReplay.RecordAndReplay | src/common/path.c:199-513 | For every text and any two chunkings, an accepted recording replays completely and executes the same commands with equal arguments as the direct feed; it is accepted exactly when the direct feed is and it fits |
| Frames.CrcAppend | src/common/modem_proto.h:141-147 | The CRC taken piece by piece is the CRC of the whole |
| Frames.ModemCrc16 | src/common/modem_proto.h:141-147 | The loop computes that CRC |
| CrcDivision.FrameCrcDivides | src/common/modem_proto.h:141-147 | The CRC is the remainder of the text, as a polynomial over GF(2), by x^16 + x^12 + x^5 + 1, and no other value is |
| CrcDivision.FrameBurstCaught | src/common/modem_proto.h:141-147 | Two bytes in a row garbled anywhere never leave the CRC right |
| CrcDivision.FrameOnWire | src/pico/modem_link.c:139-160 | A frame is A5 5A, type, flags, length, payload and that remainder, both numbers low byte first |
| Frames.FrameTold | src/pico/modem_link.c:63-101 | A whole frame fed between frames is told unchanged, and nothing else |
| Frames.AllTold | src/pico/modem_link.c:63-101 | Any frames back to back arrive in order and unchanged |
| Frames.OnlyWholeFrames | src/pico/modem_link.c:63-101 | A message is told only at the last byte of a frame whose every byte was just received in one piece |
| Frames.RunReflects | src/pico/modem_link.c:63-101 | The parser always holds exactly the frame it is in the middle of |
| Frames.Settles | src/pico/modem_link.c:57-103 | From any state, a frame's length of bytes without A5 leads back to the start |
| Frames.Resynchronises | src/pico/modem_link.c:57-103 | After such noise everything sent arrives |
| ModemLink.Receiver.ParseByte | src/pico/modem_link.c:63-101 | The fields after a byte are the specified machine's |
| ModemLink.Receiver.Receive | modem/main/link.c:147-191 | The modem's loop is the same machine |
| ModemLink.TxRing.Kick | src/pico/modem_link.c:105-117 | Bytes leave in order, the finished stretch first |
| ModemLink.TxRing.Push | src/pico/modem_link.c:123-128 | Bytes go in behind those waiting, across the end of the ring |
| ModemLink.TxRing.Send2 | src/pico/modem_link.c:139-160 | The whole frame is accepted behind everything before it, or nothing is; refused exactly for length or lack of room |
| ModemLink.FrameCheck | modem/main/link.c:97-116 | The CRC in the sender's pieces is the frame's |
| Credit.RunConserves | src/pico/http_modem.c:91-218 | Under every interleaving: credit at the modem, body in flight, bytes owed, grants in flight and what the race lost always make exactly one window, so the modem never sends a byte it was not granted |
| Credit.After | src/pico/http_modem.c:91-218 | Every state of every interleaving of the four parties keeps the accounting |
| Credit.NoStall | src/pico/http_modem.c:136-164 | An idle transfer can go on, by a grant http_poll retries, if and only if the race lost no more than half a window |
| Credit.LostOnlyInRace | modem/main/httpc.c:144-162 | Credit is lost if and only if a grant is handled between the load and the store of the spending loop |
| Credit.RaceFreeConserves | modem/main/httpc.c:144-162 | On every run without that race nothing is lost and no transfer stalls |
| Credit.StallReached | modem/main/httpc.c:144-162 | The race is real: a run from start-up after which the transfer is stuck with 5115 bytes of credit lost |
| Credit.RunTells | src/pico/http_modem.c:166-218 | No request hangs unnoticed: while it is active and nothing is on its way to the host, the modem is serving it or still has it to start |
| Credit.CancelStops | modem/main/httpc.c:144-162 | Once a cancel has reached the request being served, at most the chunk under way still goes out |
| Credit.NothingOwed | src/pico/http_modem.c:160-164 | As long as the ring has room for its grants the host never owes half a window between messages |
| Credit.StepInv | src/pico/http_modem.c:91-218 | Each step of host, link and modem tasks keeps the accounting |
| Credit.GrantServed | modem/main/httpc.c:308-312 | A grant for the current request never meets a request still waiting to start |
| Credit.Client.HttpGet | src/pico/http_modem.c:91-123 | The object after a request is the protocol's host step: the first window goes with it, and a request the ring has no room for still takes its number; refused while one is active |
| Credit.Client.GrantFlush | src/pico/http_modem.c:153-158 | All that is owed is granted, or stays owed when the ring is full |
| Credit.Client.GrantMore | src/pico/http_modem.c:160-164 | Consumed bytes are owed, and granted from half a window on |
| Credit.Client.Receive | src/pico/http_modem.c:166-218 | The object after a message is the protocol's host step; messages of other requests change nothing |
| Credit.Client.Poll | src/pico/http_modem.c:136-149 | A grant that found the ring full is tried again |
| Http.ChunkedRecovered | src/pico/http_client.c:567-649 | Any chunking of a body (section 4.1 of RFC 7230), with extensions and trailers, gives exactly the body, and the parser stops on the last byte of the message |
| Http.LengthRecovered | src/pico/http_client.c:567-649 | A body of the announced length is handed on exactly and ends the message |
| Http.UntilClose | src/pico/http_client.c:567-649 | A body that ends with the connection never stops the parser |
| Http.HeadFed | src/pico/http_client.c:493-558 | The head leaves the parser where its framing fields say, on its last byte |
| Http.HexOfIs | src/pico/http_client.c:588-605 | A chunk's size is the number its hex digits denote, refused only when it needs more than 32 bits |
| HttpRules.SizeRefused | src/pico/http_client.c:588-605 | A size line is refused exactly when it is too long or does not begin with such a number; an empty one is passed over |
| HttpRules.StatusRefused | src/pico/http_client.c:493-510 | A status line is refused exactly when it is none, and taken otherwise |
| HttpRules.TerminatorRefused | src/pico/http_client.c:567-649 | Behind a chunk's data come carriage returns and the line feed, anything else is refused |
| HttpRules.BodilessMessage | src/pico/http_client.c:537-557 | A 204 or 304 response ends with its head, whatever its fields announce |
| HttpRules.ClosesIff | src/pico/http_client.c:493-558 | The connection is closed behind a response exactly when the last Connection field that says anything says so, or none does and it is HTTP/1.0, or only its end can end the body |
| HttpHead.HasTokenIff | src/pico/http_client.c:465-474 | A token is found exactly when it is one of the pieces between commas and blanks |
| HttpHead.RedirectFollowed | src/pico/http_client.c:537-557 | A response is a redirect to follow exactly for five codes with a Location short enough |
| HttpHead.ParseU32Is | src/pico/http_client.c:476-486 | The decimal value, refused exactly for no text, anything but digits, and values from 2684354560 on, although larger ones fit 32 bits |
| HttpHead.ChunkedHead | src/pico/http_client.c:493-558 | A head with the line Transfer-Encoding: chunked, in any case and spacing and among any other lines, announces a chunked body |
| HttpHead.LengthHead | src/pico/http_client.c:493-558 | A head with the line Content-Length: n, no later one of that name and no Transfer-Encoding, announces n bytes; none end the response at once |
| HttpHead.InterimsSkipped | src/pico/http_client.c:537-541 | After any interim 1xx responses the parser is as at the start |
| HttpHead.ChunkedMessage | src/pico/http_client.c:493-649 | From the text of the lines alone: interim responses, a head with Transfer-Encoding: chunked, any chunking: exactly the body, and a stop on the last byte |
| HttpHead.LengthMessage | src/pico/http_client.c:493-649 | The same with Content-Length, an empty body included |
| Http.RunStopped | src/pico/http_client.c:567-649 | A parser that stopped takes nothing more |
| HttpParser.ReadU32 | src/pico/http_client.c:476-486 | The loop computes that value |
| HttpParser.ReadSize | src/pico/http_client.c:588-605 | The size of a chunk line, its error when it does not fit |
| HttpParser.Client.ParseBytes | src/pico/http_client.c:567-649 | The object does what the bytes one at a time do, and says how many it used; the sink was given exactly the body of those, and accepted every stretch but, when it aborts the response, the last |
| HttpParser.Client.Out | src/pico/http_client.c:560-564 | The stretch is handed on unless a redirect is followed; false exactly when the sink refuses it |
| HttpParser.ParsePieces | src/pico/http_client.c:567-649 | Any split of the wire bytes gives the same state and the same body, and a sink that aborts has a front of it |
| KnownNets.RemembersEight | src/pico/flash_store.c:209-232 | After any joins the list is exactly the last eight networks joined, most recent first |
| KnownNets.RemembersLatest | src/pico/flash_store.c:209-242 | With networks forgotten in between, whatever was pushed out was joined longer ago than everything still listed |
| KnownNets.AddedNames | src/pico/flash_store.c:216-232 | Joining is the same event whether the network was known, new, or new to a full list |
| KnownNets.Networks.Find | src/pico/flash_store.c:202-207 | The place of a known name; none exactly for unknown or empty ones |
| KnownNets.Networks.Promote | src/pico/flash_store.c:209-214 | The entry comes to the front, the others keep their order; an index off the list changes nothing |
| KnownNets.Networks.Add | src/pico/flash_store.c:216-232 | At the front with the new password, cut to fit; other entries kept, a full list loses its last |
| KnownNets.Networks.Forget | src/pico/flash_store.c:234-242 | Exactly that network goes, true exactly if it was there |
| KnownNets.Networks.ForgetAll | src/pico/flash_store.c:244-247 | An empty list |

## Left out

- JsonFixed.ToFixed: texts beyond 9000 characters, where only acceptance and range are stated; the tokenizer stops at 31.
- Raster.Raster.FillPoly: rows that drop crossings because their buffer is full are unspecified, as in the program; 32-bit overflow of intermediate coordinates is not modelled.
- Raster.Raster.FillCircle: 32-bit overflow of intermediate coordinates is not modelled, nor is it in StrokeCircle.
- GeomFlash.GeomStore.Transfer: a power cut inside one sector erase or one page program is not modelled, each is one step.
- GeomFlash.GeomStore.AddCircle: a radius of -2147483648, whose negation overflows in the program; the same for GeomRam and every call through OpOk.
- GeomFlash.GeomStore: page, write and index buffers are sequences held in fields, not arrays; memory is counted in 32-bit words since every transfer of the store is a multiple of four bytes, and a RAM capacity is a whole number of words below 4 GiB.
- LinePool.LinePool: the wrap of 32-bit pool sizes and of its statistics counters.
- PoolRun.ReaderUndisturbed: reader_begin is one step; reading a line record in two words, torn against a commit, is not modelled.
- Raster.Raster: anti-aliased fills, rectangles, lines, strokes of polygons, bitmaps and glyphs; the palette blend is a function parameter of the ink.
- Palette.Palette.Add: only for full colour (KIOSK_FULL_COLOUR=1); in the build with balanced levels an index need not stay the answer.
- HstxSlots.RunSafe: DMA and command timing; each C statement that touches shared state is one step.
- WordRunEncode.Encoder.ResetPairs: lines of an old frame that still use ids given before the reset.
- WordRunScanout.Scanout.EncodeLine: packing a line after a palette reset that no upload has followed; the program uploads before it renders. The start-up self-test of the expander is not modelled.
- HstxScanout.BuildLine: the line table and the pool's bytes are stable while a slot is built, and HstxSlots.Scan reads a slot's state and row in one step; the reader's guard, the slots and the build are not composed in one statement.
- HstxColours.ColoursLost: that some text makes the decoder ask for exactly those colours and then fail; decoding frames is not part of this model.
- GeomBox.WrittenBoxed: the test of a box against a band, and shapes stroked or placed by a transform, whose boxes the program widens; a circle's box at pixel 32767 and beyond.
- JsonLanguage.AcceptedIsJson: the other direction is TextMeans, for texts whose surrogates come in pairs; what a lone one becomes is stated by JsonText.
- PathText.PathScans: numbers of more than 23 bytes, which the program cuts, and a points attribute with an odd last coordinate; a sign or point standing alone is read as 0.
- PathRules.NumbersSpelled: numbers of 23 bytes and more.
- HttpRules.ClosesIff: opening and reusing connections; only the decision is modelled.
- JsonStream.Stream.Feed: the conversion of numbers to float; the callback's answer is a function of what it was told.
- PathReplay.RecordAndReplay: decimals become floats by a function parameter, floats are bit patterns with the two zeros equal, and executing a command is recording it: curve and arc flattening are not part of this model.
- ModemLink.TxRing.Send2: the two lengths together are below 65536, the program adds them in 16 bits; counters of traffic do not wrap.
- ModemLink.Receiver: the receive DMA ring, statistics and log frames.
- Credit.RunConserves: connecting, redirects and time limits of the modem before the body; request ids do not wrap at 256, frames are not lost on the link, and a modem restart is not a step.
- HttpParser.Client.ParseBytes: the sink's answer is a function of what it was given; following redirects, closing, retrying and time limits; the comparisons of header names and tokens are functions.
- KnownNets.Networks: loading, validating and saving the configuration; names and passwords are text without terminator.
- The unpacked expander of HSTX lines and the assembly and four-times-unrolled forms of the word expander.
- The captive-portal relay, Wi-Fi and TLS, clocks and pads, fonts, icons, colour names, built-in screens and the command console.
- Reading the definition index through a pointer into flash: the model reads the same words from the flash image.
