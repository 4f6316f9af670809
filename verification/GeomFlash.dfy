/** The device's geometry store (geom_flash.c over geom_common.c). The flash region, the page
    buffer and the record writer are fields changed step by step; `images` records the region after
    every sector erase and page program, which are the states a power cut can leave behind. */
module GeomFlash {
  import opened Prelude
  import opened GeomWords
  import opened NorFlash
  import W = GeomWriter

  /** Words of the region that belong to the set being written. */
  function LogOf(flash: seq<Word>, page: seq<Word>, pageOff: nat): seq<Word> {
    Programmed(flash, pageOff) + page
  }

  /** The data pages already in flash. */
  function Programmed(flash: seq<Word>, pageOff: nat): seq<Word> {
    if HDR <= pageOff <= |flash| then flash[HDR..pageOff] else []
  }

  /** While a set is being written, the header is erased, and so is everything between the next page
      and the erase frontier. */
  ghost predicate Frontier(flash: seq<Word>, pageOff: nat, upto: nat) {
    && |flash| == REGION && HDR <= pageOff <= upto <= REGION
    && pageOff % PAGE == 0 && upto % SECTOR == 0
    && Blank(flash, 0, HDR) && Blank(flash, pageOff, upto)
  }

  /** The running length and CRC are those of the log. */
  ghost predicate Running(log: seq<Word>, crc: Word, dataLen: nat) {
    dataLen == 4 * |log| && crc == Crc(0, Bytes(log))
  }

  /** Pages programmed since their last erase, as counts. */
  ghost predicate Fresh(wear: seq<nat>, lo: nat, hi: nat) {
    hi <= |wear| && forall p :: lo <= p < hi ==> wear[p] == 0
  }

  /** No page of the region was programmed twice without an erase between. */
  ghost predicate AtMostOnce(wear: seq<nat>) {
    |wear| == REGION / PAGE && forall p :: 0 <= p < |wear| ==> wear[p] <= 1
  }

  lemma EraseWearOnce(wear: seq<nat>, off: nat, len: nat)
    requires AtMostOnce(wear)
    ensures AtMostOnce(EraseWear(wear, off, len))
  {
  }

  lemma ProgramWearOnce(wear: seq<nat>, p: nat)
    requires AtMostOnce(wear) && p < |wear| && wear[p] == 0
    ensures AtMostOnce(wear[p := wear[p] + 1])
  {
  }

  ghost predicate Unworn(wear: seq<nat>, pageOff: nat, erasedUpto: nat) {
    && |wear| == REGION / PAGE && pageOff <= erasedUpto <= REGION
    && Fresh(wear, 0, HDR / PAGE) && Fresh(wear, pageOff / PAGE, erasedUpto / PAGE)
  }

  /** Every image added to a history is one no reader accepts. */
  ghost predicate AllNoSet(images: seq<seq<Word>>, from: nat) {
    from <= |images| && forall i :: from <= i < |images| ==> NoSet(images[i])
  }

  /** The history gained only images without a set. */
  ghost predicate Barren(before: seq<seq<Word>>, after: seq<seq<Word>>) {
    before <= after && AllNoSet(after, |before|)
  }

  /** The history gained images without a set and then, last, one that may hold one. */
  ghost predicate BarrenButLast(before: seq<seq<Word>>, after: seq<seq<Word>>) {
    before < after && AllNoSet(after[..|after| - 1], |before|)
  }

  lemma BarrenThen(a: seq<seq<Word>>, b: seq<seq<Word>>, c: seq<seq<Word>>)
    requires Barren(a, b) && BarrenButLast(b, c)
    ensures BarrenButLast(a, c)
  {
    hide NoSet;
  }

  lemma BarrenNone(images: seq<seq<Word>>)
    ensures Barren(images, images)
  {
  }

  lemma NoneYet(images: seq<seq<Word>>)
    ensures AllNoSet(images, |images|)
  {
  }

  lemma BarrenMore(images: seq<seq<Word>>, from: nat, f: seq<Word>)
    requires AllNoSet(images, from) && |f| == REGION && f[0] == ERASED
    ensures AllNoSet(images + [f], from)
  {
    hide NoSet;
    UnmarkedIsNoSet(f);
  }

  lemma EraseNothing(f: seq<Word>, wear: seq<nat>, off: nat)
    ensures Erase(f, off, 0) == f && EraseWear(wear, off, 0) == wear
  {
  }

  lemma {:induction false} EraseFirst(f: seq<Word>, off: nat, len: nat)
    requires |f| > 0
    ensures (off == 0 && len > 0) || f[0] == ERASED ==> Erase(f, off, len)[0] == ERASED
  {
  }

  lemma {:induction false} ErasedRange(f: seq<Word>, off: nat, len: nat, more: nat)
    ensures Erase(Erase(f, off, len), off + len, more) == Erase(f, off, len + more)
  {
  }

  lemma {:induction false} ErasedStaysBlank(f: seq<Word>, lo: nat, mid: nat, len: nat)
    requires Blank(f, lo, mid) && lo <= mid && mid + len <= |f|
    ensures Blank(Erase(f, mid, len), lo, mid + len)
  {
  }

  lemma {:induction false} EraseElsewhere(f: seq<Word>, off: nat, len: nat, lo: nat, hi: nat)
    requires lo <= hi <= off && hi <= |f|
    ensures Erase(f, off, len)[lo..hi] == f[lo..hi]
    ensures Blank(f, lo, hi) ==> Blank(Erase(f, off, len), lo, hi)
  {
  }

  function EraseWear(wear: seq<nat>, off: nat, len: nat): (w: seq<nat>)
    ensures |w| == |wear|
  {
    seq(|wear|, p requires 0 <= p < |wear| => if off <= p * PAGE < off + len then 0 else wear[p])
  }

  lemma {:induction false} EraseWearRange(wear: seq<nat>, off: nat, len: nat, more: nat)
    ensures EraseWear(EraseWear(wear, off, len), off + len, more) == EraseWear(wear, off, len + more)
  {
  }

  /** Erasing on from the frontier keeps the log and the blank header. */
  lemma {:induction false} FrontierMoves(f: seq<Word>, pageOff: nat, upto: nat, len: nat)
    requires Frontier(f, pageOff, upto) && upto + len <= REGION && len % SECTOR == 0
    ensures Frontier(Erase(f, upto, len), pageOff, upto + len)
    ensures Programmed(Erase(f, upto, len), pageOff) == Programmed(f, pageOff)
  {
    EraseElsewhere(f, upto, len, 0, HDR);
    EraseElsewhere(f, upto, len, HDR, pageOff);
    ErasedStaysBlank(f, pageOff, upto, len);
  }

  lemma {:induction false} WearMoves(wear: seq<nat>, pageOff: nat, upto: nat, len: nat)
    requires Unworn(wear, pageOff, upto) && upto + len <= REGION && len % SECTOR == 0 && upto % SECTOR == 0
    requires HDR <= pageOff && pageOff % PAGE == 0
    ensures Unworn(EraseWear(wear, upto, len), pageOff, upto + len)
  {
    SectorPages(upto);
    SectorPages(upto + len);
    ErasedPages(wear, upto, len);
    UnwornOn(wear, EraseWear(wear, upto, len), pageOff / PAGE, upto / PAGE, (upto + len) / PAGE, pageOff, upto, upto + len);
  }

  /** The same in pages. */
  lemma {:induction false} UnwornOn(wear: seq<nat>, w: seq<nat>, a: nat, b: nat, c: nat, pageOff: nat, upto: nat, end: nat)
    requires Unworn(wear, pageOff, upto) && a == pageOff / PAGE && b == upto / PAGE && c == end / PAGE
    requires |w| == |wear| && upto <= end <= REGION && HDR <= pageOff
    requires forall p :: 0 <= p < |wear| ==> w[p] == if b <= p < c then 0 else wear[p]
    ensures Unworn(w, pageOff, end)
  {
  }

  lemma SectorPages(off: nat)
    requires off % SECTOR == 0
    ensures off % PAGE == 0
  {
  }

  lemma {:induction false} ErasedPages(wear: seq<nat>, off: nat, len: nat)
    requires off % PAGE == 0 && (off + len) % PAGE == 0
    ensures forall p :: 0 <= p < |wear| ==> EraseWear(wear, off, len)[p] == if off / PAGE <= p < (off + len) / PAGE then 0 else wear[p]
  {
    forall p | 0 <= p < |wear|
      ensures EraseWear(wear, off, len)[p] == if off / PAGE <= p < (off + len) / PAGE then 0 else wear[p]
    {
      PageBefore(p, off);
      PageBefore(p, off + len);
    }
  }

  lemma PageBefore(p: nat, off: nat)
    requires off % PAGE == 0
    ensures p * PAGE < off <==> p < off / PAGE
  {
  }

  lemma {:induction false} PageLands(f: seq<Word>, pageOff: nat, upto: nat, page: seq<Word>)
    requires Frontier(f, pageOff, upto) && |page| == PAGE && pageOff + PAGE <= upto
    ensures var g := NorFlash.Program(f, pageOff, page);
            && Frontier(g, pageOff + PAGE, upto)
            && Programmed(g, pageOff + PAGE) == Programmed(f, pageOff) + page
            && g[0] == ERASED
  {
    ProgramBlank(f, pageOff, page);
    var g := NorFlash.Program(f, pageOff, page);
    assert g[HDR..pageOff] == f[HDR..pageOff];
    assert g[HDR..pageOff + PAGE] == g[HDR..pageOff] + g[pageOff..pageOff + PAGE];
  }

  lemma {:induction false} WearPage(wear: seq<nat>, pageOff: nat, upto: nat)
    requires Unworn(wear, pageOff, upto) && pageOff % PAGE == 0 && upto % SECTOR == 0 && HDR <= pageOff && pageOff + PAGE <= upto
    ensures wear[pageOff / PAGE] == 0
    ensures Unworn(wear[pageOff / PAGE := wear[pageOff / PAGE] + 1], pageOff + PAGE, upto)
  {
    assert (pageOff + PAGE) / PAGE == pageOff / PAGE + 1;
    assert pageOff / PAGE < upto / PAGE;
  }

  lemma {:induction false} RunningOn(log: seq<Word>, more: seq<Word>, crc: Word, dataLen: nat)
    requires Running(log, crc, dataLen)
    ensures Running(log + more, Crc(crc, Bytes(more)), dataLen + 4 * |more|)
  {
    CrcOfWords(log, more);
  }

  lemma LogLength(f: seq<Word>, page: seq<Word>, pageOff: nat)
    requires HDR <= pageOff <= |f|
    ensures HDR + |LogOf(f, page, pageOff)| == pageOff + |page|
  {
  }

  lemma LogGrows(f: seq<Word>, page: seq<Word>, pageOff: nat, more: seq<Word>)
    ensures LogOf(f, page + more, pageOff) == LogOf(f, page, pageOff) + more
  {
  }

  /** A full page always has room, as long as the log respects the region. */
  lemma PageRoom(f: seq<Word>, page: seq<Word>, pageOff: nat)
    requires HDR <= pageOff <= |f| && |page| == PAGE && pageOff % PAGE == 0
    requires |LogOf(f, page, pageOff)| <= DATA_MAX
    ensures pageOff + PAGE <= REGION
  {
  }

  /** End of the 64 KB block holding the frontier, clipped to the region. */
  function BlockEnd(upto: nat): (e: nat)
    requires upto < REGION && upto % SECTOR == 0
    ensures upto < e <= REGION && e % SECTOR == 0 && e <= upto + BLOCK && (e % BLOCK == 0 || e == REGION)
  {
    var e := (upto / BLOCK + 1) * BLOCK;
    if e > REGION then REGION else e
  }

  // ---- programming the header ----

  /** Header pages p.. are in place, the ones before are still erased. */
  ghost predicate HeaderDown(f: seq<Word>, h: Header, p: nat)
    requires HeaderOk(h)
  {
    && |f| == REGION && p <= HDR_PAGES
    && (forall o :: p * PAGE <= o < HDR_PAGES * PAGE ==> f[o] == HeaderWord(h, o))
    && Blank(f, 0, p * PAGE)
  }

  lemma {:induction false} HeaderPageDown(f: seq<Word>, h: Header, p: nat)
    requires HeaderOk(h) && p > 0 && HeaderDown(f, h, p)
    ensures var g := NorFlash.Program(f, (p - 1) * PAGE, HeaderPage(h, p - 1));
            HeaderDown(g, h, p - 1) && g[HDR..] == f[HDR..]
  {
    hide NorFlash.Program, HeaderWord;
    var off, page := (p - 1) * PAGE, HeaderPage(h, p - 1);
    ProgramBlank(f, off, page);
    var g := NorFlash.Program(f, off, page);
    forall o | off <= o < HDR_PAGES * PAGE
      ensures g[o] == HeaderWord(h, o)
    {
      if o < off + PAGE { assert g[off..off + PAGE][o - off] == page[o - off]; }
    }
    ProgramBeside(f, off, page, HDR);
  }

  /** Words past the page keep their contents. */
  lemma {:induction false} ProgramBeside(f: seq<Word>, off: nat, page: seq<Word>, from: nat)
    requires off + |page| <= from <= |f|
    ensures NorFlash.Program(f, off, page)[from..] == f[from..]
    ensures forall o :: 0 <= o < off ==> NorFlash.Program(f, off, page)[o] == f[o]
  {
    hide AndWord;
  }

  /** The header a commit builds for the set with this log. */
  function HeaderFor(id: seq<Byte>, ndefs: Word, wh: Word, index: seq<Word>, log: seq<Word>): Header
    requires |log| <= DATA_MAX
  {
    Header(MAGIC, VERSION, id, ndefs, 4 * |log|, Crc(0, Bytes(log)), wh, index)
  }

  /** A complete header over a log that is in place is a set, CRC included. */
  lemma {:induction false} CompleteBoots(f: seq<Word>, h: Header, log: seq<Word>)
    requires HeaderOk(h) && HeaderDown(f, h, 0) && |log| <= DATA_MAX && f[HDR..HDR + |log|] == log
    requires h == HeaderFor(h.id, h.ndefs, h.outWh, h.index, log) && h.ndefs <= MAX_DEFS && CString(h.id)
    ensures Boot(f) == Some(SetFrom(h))
  {
    assert f[..HDR_WORDS] == HeaderWords(h);
    HeaderRoundTrip(h, f);
    assert f[HDR..] == log + f[HDR + |log|..];
    BytesAppend(log, f[HDR + |log|..]);
    assert DataBytes(f, 4 * |log|) == Bytes(log);
  }

  /** After a reset the committed set answers every id with the last record finished for it. */
  lemma {:induction false} CompleteLooks(f: seq<Word>, w: W.Writer, a: W.Abs, s: Set, id: nat)
    requires |f| == REGION && Boot(f) == Some(s) && W.Refines(w, a) && w.first == HDR
    requires HDR + |w.log| <= REGION && f[HDR..HDR + |w.log|] == w.log
    requires s.index == w.index && s.dataLen == 4 * |w.log|
    ensures Look(f, id) == if id in a.defs && id < MAX_DEFS then Some(a.defs[id]) else None
  {
    W.GetReturnsLast(w, a, f, id);
  }

  // ---- C strings in char[32] ----

  /** geom_copy_id: at most 31 characters and a terminator; what lay beyond it stays. */
  function CopyId(dst: seq<Byte>, src: seq<Byte>): (r: seq<Byte>)
    requires |dst| == ID_BYTES
    ensures |r| == ID_BYTES && 0 in r && (dst[ID_BYTES - 1] == 0 ==> r[ID_BYTES - 1] == 0)
  {
    var n := if |src| < ID_BYTES - 1 then |src| else ID_BYTES - 1;
    var r := src[..n] + [0] + dst[n + 1..];
    assert r[n] == 0;
    r
  }

  /** The id field at commit: given at the start of the set, and again if it arrived later. */
  function IdField(dst: seq<Byte>, staticId: seq<Byte>, late: Option<seq<Byte>>): (r: seq<Byte>)
    requires |dst| == ID_BYTES
    ensures |r| == ID_BYTES
  {
    var first := CopyId(dst, staticId);
    if late.Some? then CopyId(first, late.value) else first
  }

  /** strncmp(field, s, 32) == 0 with strlen(s) < 32. */
  predicate IdIs(field: seq<Byte>, s: seq<Byte>)
    requires |field| == ID_BYTES
  {
    |s| < ID_BYTES && field[..|s|] == s && field[|s|] == 0
  }

  /** What fits in the field of an id. */
  function Cut31(s: seq<Byte>): seq<Byte> { if |s| < ID_BYTES then s else s[..ID_BYTES - 1] }

  /** A stored id is asked for by exactly the string that was stored, cut to 31 characters. */
  lemma {:induction false} StoredIdIs(dst: seq<Byte>, staticId: seq<Byte>, late: Option<seq<Byte>>, s: seq<Byte>)
    requires |dst| == ID_BYTES && 0 !in staticId && (late.Some? ==> 0 !in late.value) && 0 !in s
    ensures IdIs(IdField(dst, staticId, late), s) <==> s == Cut31(if late.Some? then late.value else staticId)
  {
    hide CopyId;
    CopiedIdIs(dst, staticId, s);
    if late.Some? { CopiedIdIs(CopyId(dst, staticId), late.value, s); }
  }

  lemma {:induction false} CopiedIdIs(dst: seq<Byte>, src: seq<Byte>, s: seq<Byte>)
    requires |dst| == ID_BYTES && 0 !in src && 0 !in s
    ensures IdIs(CopyId(dst, src), s) <==> s == Cut31(src)
  {
    var f, c := CopyId(dst, src), Cut31(src);
    assert f[..|c|] == c && f[|c|] == 0;
    assert forall k :: 0 <= k < |c| ==> f[k] == c[k] && c[k] in src;
    assert |s| < ID_BYTES ==> forall k :: 0 <= k < |s| ==> f[..|s|][k] == f[k] && s[k] in s;
  }

  /** A set for this resolution may be shown by a device running at that one; 0 stands for any. */
  predicate Suits(setWh: Word, resWh: Word) { resWh == 0 || setWh == resWh }

  class GeomStore {
    // the flash region
    var flash: seq<Word>
    ghost var images: seq<seq<Word>>
    ghost var wear: seq<nat>
    // flash_impl_t
    var page: seq<Word>
    var pageOff: nat
    var erasedUpto: nat
    var crc: Word
    var dataLen: nat
    var crcState: nat
    // geom_store_t, committed set
    var present: bool
    var isOpen: bool
    var id: seq<Byte>
    var setWh: Word
    var resWh: Word
    var ndefs: nat
    var rdIndexSet: bool
    var rdDataEnd: nat
    // geom_store_t, set being written
    var writing: bool
    var wrId: seq<Byte>
    var wrIndex: seq<Word>
    var wbuf: seq<Word>
    var wrNdefs: nat
    var dropped: nat
    var recActive: bool
    var recFailed: bool
    var rec: Rec
    var recDataOff: nat
    var wrOff: nat
    /** The records finished so far, as the plain map the writer refines. */
    ghost var abs: W.Abs

    /** Power comes on over whatever the flash holds: all RAM is clear, and no page is known to be
        unprogrammed. */
    constructor (image: seq<Word>)
      requires |image| == REGION
      ensures Powered() && !writing && flash == image && !present && !isOpen && resWh == 0
    {
      flash, images, wear := image, [image], seq(REGION / PAGE, _ => 1);
      page, pageOff, erasedUpto, crc, dataLen, crcState := [], 0, 0, 0, 0, 0;
      wbuf, wrIndex, wrNdefs, dropped, wrOff := [], [], 0, 0, 0;
      recActive, recFailed, recDataOff, rec := false, false, 0, W.NO_REC;
      present, isOpen, rdIndexSet, writing := false, false, false, false;
      rdDataEnd, ndefs, setWh, resWh := 0, 0, 0, 0;
      id, wrId := seq(ID_BYTES, _ => 0), seq(ID_BYTES, _ => 0);
    }

    ghost predicate Device()
      reads this`flash, this`images, this`wear
    {
      && |flash| == REGION && |images| > 0 && images[|images| - 1] == flash
      && AtMostOnce(wear)
    }

    /** The device while a set is being written. */
    ghost predicate Ready()
      reads this`flash, this`images, this`wear, this`pageOff, this`erasedUpto
    {
      && Device() && HDR <= pageOff <= erasedUpto <= REGION && pageOff % PAGE == 0 && erasedUpto % SECTOR == 0
      && Frontier(flash, pageOff, erasedUpto) && Unworn(wear, pageOff, erasedUpto)
    }

    /** The backend between appends. */
    ghost predicate Steady()
      reads this`flash, this`images, this`wear, this`pageOff, this`erasedUpto, this`page, this`crc, this`dataLen
    {
      && Ready() && |page| < PAGE
      && Running(Log(), crc, dataLen)
    }

    ghost function Log(): seq<Word>
      reads this`flash, this`page, this`pageOff
    {
      LogOf(flash, page, pageOff)
    }

    ghost predicate Writing()
      reads this`flash, this`images, this`wear, this`pageOff, this`erasedUpto, this`page, this`crc, this`dataLen, this`wrOff
    {
      Steady() && wrOff == HDR + |Log()| && |Log()| <= DATA_MAX
    }

    /** The record writer this object implements. */
    ghost function Writer(): W.Writer
      reads this
    {
      W.Writer(DATA_MAX, HDR, Log(), wbuf, wrIndex, wrNdefs, dropped, recActive, recFailed, rec,
               if recDataOff >= HDR then recDataOff - HDR else 0)
    }

    // ---- flash_store.c ----

    method EraseSector(off: nat)
      requires Device() && off % SECTOR == 0 && off + SECTOR <= REGION
      modifies this`flash, this`images, this`wear
      ensures Device() && flash == Erase(old(flash), off, SECTOR) && images == old(images) + [flash]
      ensures wear == EraseWear(old(wear), off, SECTOR)
    {
      EraseWearOnce(wear, off, SECTOR);
      flash := Erase(flash, off, SECTOR);
      images := images + [flash];
      wear := EraseWear(wear, off, SECTOR);
    }

    /** flash_store_erase: whole sectors, one at a time. */
    method FlashErase(off: nat, len: nat)
      requires Device() && off % SECTOR == 0 && len % SECTOR == 0 && off + len <= REGION
      modifies this`flash, this`images, this`wear
      ensures Device() && flash == Erase(old(flash), off, len) && wear == EraseWear(old(wear), off, len)
      ensures old(images) <= images && (len > 0 ==> |old(images)| < |images|)
      ensures off == 0 || old(flash)[0] == ERASED ==> AllNoSet(images, |old(images)|)
    {
      hide AllNoSet, NoSet, Erase, EraseWear, AtMostOnce;
      var done := 0;
      ghost var blank := off == 0 || flash[0] == ERASED;
      EraseNothing(flash, wear, off);
      NoneYet(images);
      while done < len
        invariant Device() && done <= len && done % SECTOR == 0
        invariant flash == Erase(old(flash), off, done) && wear == EraseWear(old(wear), off, done)
        invariant old(images) <= images && (done > 0 ==> |old(images)| < |images|)
        invariant blank ==> AllNoSet(images, |old(images)|)
      {
        ghost var before := images;
        ErasedRange(old(flash), off, done, SECTOR);
        EraseWearRange(old(wear), off, done, SECTOR);
        EraseSector(off + done);
        done := done + SECTOR;
        EraseFirst(old(flash), off, done);
        if blank { BarrenMore(before, |old(images)|, flash); }
      }
    }

    /** flash_store_program of one page, which must be unprogrammed since its last erase. */
    method FlashProgram(off: nat, data: seq<Word>)
      requires Device() && off % PAGE == 0 && |data| == PAGE && off + PAGE <= REGION && wear[off / PAGE] == 0
      modifies this`flash, this`images, this`wear
      ensures Device() && flash == NorFlash.Program(old(flash), off, data) && images == old(images) + [flash]
      ensures wear == old(wear)[off / PAGE := old(wear)[off / PAGE] + 1]
    {
      ProgramWearOnce(wear, off / PAGE);
      flash := NorFlash.Program(flash, off, data);
      images := images + [flash];
      wear := wear[off / PAGE := wear[off / PAGE] + 1];
    }

    // ---- geom_flash.c: streaming ----

    method EnsureErased(endOff: nat)
      requires Ready() && endOff <= REGION
      modifies this`flash, this`images, this`wear, this`erasedUpto
      ensures Ready() && erasedUpto >= endOff && Programmed(flash, pageOff) == old(Programmed(flash, pageOff))
      ensures Barren(old(images), images)
    {
      hide Frontier, Unworn, NoSet, Programmed;
      while erasedUpto < endOff
        invariant Ready() && Programmed(flash, pageOff) == old(Programmed(flash, pageOff))
        invariant Barren(old(images), images)
      {
        EraseBlock();
      }
    }

    method EraseBlock()
      requires Ready() && erasedUpto < REGION
      modifies this`flash, this`images, this`wear, this`erasedUpto
      ensures Ready() && old(erasedUpto) < erasedUpto && Programmed(flash, pageOff) == old(Programmed(flash, pageOff))
      ensures Barren(old(images), images)
    {
      hide Erase, EraseWear, NoSet, Unworn, Programmed, BlockEnd;
      var blockEnd := BlockEnd(erasedUpto);
      var len := blockEnd - erasedUpto;
      FrontierMoves(flash, pageOff, erasedUpto, len);
      WearMoves(wear, pageOff, erasedUpto, len);
      FlashErase(erasedUpto, len);
      erasedUpto := blockEnd;
    }

    /** Programs the full page buffer at the write position. */
    method FlushPage() returns (ok: bool)
      requires Ready() && |page| == PAGE
      modifies this`flash, this`images, this`wear, this`erasedUpto, this`pageOff, this`page
      ensures Ready() && ok == (old(pageOff) + PAGE <= REGION)
      ensures ok ==> page == [] && pageOff == old(pageOff) + PAGE
      ensures !ok ==> page == old(page) && pageOff == old(pageOff)
      ensures Log() == old(Log())
      ensures Barren(old(images), images)
    {
      hide Frontier, Unworn, NoSet, Programmed, NorFlash.Program;
      if pageOff + PAGE > REGION { return false; }
      EnsureErased(pageOff + PAGE);
      PageLands(flash, pageOff, erasedUpto, page);
      WearPage(wear, pageOff, erasedUpto);
      FlashProgram(pageOff, page);
      UnmarkedIsNoSet(flash);
      pageOff := pageOff + PAGE;
      page := [];
      return true;
    }

    /** Words into the page buffer, which is programmed when it fills. */
    method FillPage(piece: seq<Word>)
      requires Steady() && 0 < |piece| <= PAGE - |page| && |Log()| + |piece| <= DATA_MAX
      modifies this`flash, this`images, this`wear, this`erasedUpto, this`pageOff, this`page, this`crc, this`dataLen
      ensures Steady() && Log() == old(Log()) + piece
      ensures Barren(old(images), images)
    {
      hide Frontier, Unworn, Running, NoSet, Programmed, LogOf;
      RunningOn(Log(), piece, crc, dataLen);
      LogGrows(flash, page, pageOff, piece);
      page := page + piece;
      crc := Crc32Update(crc, Bytes(piece));
      dataLen := dataLen + 4 * |piece|;
      if |page| == PAGE {
        PageRoom(flash, page, pageOff);
        var flushed := FlushPage();
      }
    }

    /** Appends words at the write cursor, all or nothing. */
    method FlashAppend(off: nat, data: seq<Word>) returns (ok: bool)
      requires Steady()
      modifies this`flash, this`images, this`wear, this`erasedUpto, this`pageOff, this`page, this`crc, this`dataLen
      ensures Steady() && ok == (off == HDR + |old(Log())| && |old(Log())| + |data| <= DATA_MAX)
      ensures Log() == if ok then old(Log()) + data else old(Log())
      ensures Barren(old(images), images)
    {
      hide Frontier, Unworn, Running, NoSet, LogOf;
      LogLength(flash, page, pageOff);
      if off != pageOff + |page| { return false; }
      if |data| > DATA_MAX || off - HDR > DATA_MAX - |data| { return false; }
      var i := 0;
      ghost var log := Log();
      assert log + data[..0] == log;
      while i < |data|
        invariant i <= |data| && Steady() && Log() == log + data[..i]
        invariant Barren(old(images), images)
      {
        var n := if PAGE - |page| > |data| - i then |data| - i else PAGE - |page|;
        assert log + data[..i] + data[i..i + n] == log + data[..i + n];
        FillPage(data[i..i + n]);
        i := i + n;
      }
      assert data[..|data|] == data;
      return true;
    }

    // ---- geom_common.c: the record writer ----

    /** geom_common_flush. */
    method FlushBuf() returns (ok: bool)
      requires Writing()
      modifies this`flash, this`images, this`wear, this`erasedUpto, this`pageOff, this`page, this`crc, this`dataLen,
               this`wbuf, this`wrOff
      ensures Writing() && (Writer(), ok) == W.Flush(old(Writer()))
      ensures Barren(old(images), images)
    {
      hide Steady, NoSet, LogOf;
      if wbuf == [] { return true; }
      ok := FlashAppend(wrOff, wbuf);
      if !ok { return false; }
      wrOff := wrOff + |wbuf|;
      wbuf := [];
      return true;
    }

    method Chunk(piece: seq<Word>) returns (ok: bool)
      requires Writing() && |wbuf| + |piece| <= W.WBUF
      modifies this`flash, this`images, this`wear, this`erasedUpto, this`pageOff, this`page, this`crc, this`dataLen,
               this`wbuf, this`wrOff
      ensures Writing() && (Writer(), ok) == W.Chunk(old(Writer()), piece)
      ensures Barren(old(images), images)
    {
      hide Steady, NoSet, LogOf, W.Flush;
      wbuf := wbuf + piece;
      if |wbuf| < W.WBUF { return true; }
      ok := FlushBuf();
      FlushEmpties(old(Writer()).(wbuf := old(wbuf) + piece));
      if !ok { wbuf := []; }
    }

    /** put: queues words, flushing the buffer whenever it fills. */
    method Put(data: seq<Word>) returns (ok: bool)
      requires Writing() && |wbuf| < W.WBUF
      modifies this`flash, this`images, this`wear, this`erasedUpto, this`pageOff, this`page, this`crc, this`dataLen,
               this`wbuf, this`wrOff
      ensures Writing() && (Writer(), ok) == W.Put(old(Writer()), data) && |wbuf| < W.WBUF
      ensures Barren(old(images), images)
    {
      hide Steady, NoSet, LogOf, W.Chunk;
      var i := 0;
      ghost var w0 := Writer();
      assert data[0..] == data;
      while i < |data|
        invariant i <= |data| && Writing() && |wbuf| < W.WBUF
        invariant W.Put(w0, data) == W.Put(Writer(), data[i..])
        invariant Barren(old(images), images)
      {
        var n := if W.WBUF - |wbuf| > |data| - i then |data| - i else W.WBUF - |wbuf|;
        assert data[i..][..n] == data[i..i + n] && data[i..][n..] == data[i + n..];
        ok := Chunk(data[i..i + n]);
        i := i + n;
        if !ok { return false; }
      }
      return true;
    }

    /** finish_record: the trailer, a flush, and the index entry. */
    method FinishRecord(r: Rec) returns (ok: bool)
      requires Writing() && |wbuf| < W.WBUF && RecOk(r) && r.id < |wrIndex|
      modifies this`flash, this`images, this`wear, this`erasedUpto, this`pageOff, this`page, this`crc, this`dataLen,
               this`wbuf, this`wrOff, this`dropped, this`wrNdefs, this`wrIndex
      ensures Writing() && (Writer(), ok) == W.Finish(old(Writer()), r)
      ensures Barren(old(images), images)
    {
      hide Writing, Log, Barren, W.Put, W.Flush, Trailer;
      ok := PutFlushed(Trailer(r));
      if !ok {
        Drop();
        return;
      }
      AtEnd();
      var trailerOff := 4 * (wrOff - TRAILER);
      if wrIndex[r.id] == ABSENT { wrNdefs := wrNdefs + 1; }
      wrIndex := wrIndex[r.id := trailerOff];
    }

    /** put, then a flush if it went through. */
    method PutFlushed(data: seq<Word>) returns (ok: bool)
      requires Writing() && |wbuf| < W.WBUF
      modifies this`flash, this`images, this`wear, this`erasedUpto, this`pageOff, this`page, this`crc, this`dataLen,
               this`wbuf, this`wrOff
      ensures Writing() && var (w, put) := W.Put(old(Writer()), data); (Writer(), ok) == if put then W.Flush(w) else (w, false)
      ensures Barren(old(images), images)
    {
      hide Writing, Log, NoSet, W.Put, W.Flush;
      ok := Put(data);
      if ok { ok := FlushBuf(); }
    }

    lemma AtEnd()
      requires Writing()
      ensures wrOff == HDR + |Log()| && |Log()| <= DATA_MAX
    {
      hide Steady, Log;
    }

    method Drop()
      requires Writing()
      modifies this`wbuf, this`dropped
      ensures Writing() && Writer() == W.Drop(old(Writer()))
    {
      hide Steady, NoSet, LogOf;
      wbuf := [];
      dropped := dropped + 1;
    }

    /** Data, then trailer, of a record given whole. */
    method AddWhole(i: Item) returns (ok: bool)
      requires Writing() && |wbuf| < W.WBUF && RecOk(i.rec) && i.rec.id < |wrIndex|
      modifies this`flash, this`images, this`wear, this`erasedUpto, this`pageOff, this`page, this`crc, this`dataLen,
               this`wbuf, this`wrOff, this`dropped, this`wrNdefs, this`wrIndex
      ensures Writing() && (Writer(), ok) == W.AddWhole(old(Writer()), i)
      ensures Barren(old(images), images)
    {
      hide Steady, NoSet, LogOf, W.Put, W.Finish;
      ok := Put(i.data);
      if !ok {
        Drop();
        return;
      }
      ok := FinishRecord(i.rec);
    }

    /** The marker, if one is due, then the vertex. */
    method PutMarked(v: Vertex) returns (ok: bool)
      requires Writing() && |wbuf| < W.WBUF
      modifies this`flash, this`images, this`wear, this`erasedUpto, this`pageOff, this`page, this`crc, this`dataLen,
               this`wbuf, this`wrOff, this`rec, this`recFailed
      ensures Writing() && (Writer(), ok) == W.AddVertexTo(old(Writer()), v)
      ensures Barren(old(images), images)
    {
      hide Writing, Log, NoSet, W.Mark, W.PutVertex;
      if v.start || rec.count == 0 {
        ok := PutBreak();
        if !ok { return; }
      }
      ok := PutVertex(v);
    }

    method PutBreak() returns (ok: bool)
      requires Writing() && |wbuf| < W.WBUF
      modifies this`flash, this`images, this`wear, this`erasedUpto, this`pageOff, this`page, this`crc, this`dataLen,
               this`wbuf, this`wrOff, this`rec, this`recFailed
      ensures Writing() && (Writer(), ok) == W.Mark(old(Writer())) && |wbuf| < W.WBUF
      ensures Barren(old(images), images)
    {
      hide Writing, Log, Barren, W.Put, Pair;
      ok := Put([Pair(BREAK, 0)]);
      if ok { rec := rec.(count := rec.count + 1); } else { recFailed := true; }
    }

    /** The clamped vertex into the extents and the stream. */
    method PutVertex(v: Vertex) returns (ok: bool)
      requires Writing() && |wbuf| < W.WBUF
      modifies this`flash, this`images, this`wear, this`erasedUpto, this`pageOff, this`page, this`crc, this`dataLen,
               this`wbuf, this`wrOff, this`rec, this`recFailed
      ensures Writing() && (Writer(), ok) == W.PutVertex(old(Writer()), v)
      ensures Barren(old(images), images)
    {
      hide Writing, Log, Barren, W.Put, W.Grow, Pair, ClampPx8;
      var x, y := ClampPx8(v.x8), ClampPx8(v.y8);
      GrowBox(x, y);
      ok := Put([Pair(x, y)]);
      if ok { rec := rec.(count := rec.count + 1); } else { recFailed := true; }
    }

    method GrowBox(x: Int16, y: Int16)
      modifies this`rec
      ensures rec == W.Grow(old(rec), x, y)
    {
      if rec.flags == 0 {
        rec := rec.(bx0 := x, bx1 := x, by0 := y, by1 := y, flags := 1);
      } else {
        if x < rec.bx0 { rec := rec.(bx0 := x); }
        if x > rec.bx1 { rec := rec.(bx1 := x); }
        if y < rec.by0 { rec := rec.(by0 := y); }
        if y > rec.by1 { rec := rec.(by1 := y); }
      }
    }

    method RoundBox()
      modifies this`rec
      ensures rec == W.Rounded(old(rec))
    {
      if rec.flags == 0 {
        rec := rec.(bx0 := 0, by0 := 0, bx1 := 0, by1 := 0);
      } else {
        rec := rec.(bx0 := rec.bx0 / 8, by0 := rec.by0 / 8, bx1 := Up8(rec.bx1), by1 := Up8(rec.by1), flags := 0);
      }
    }

    /** Closes the open polygon: its trailer, or nothing if an append was refused. */
    method ClosePoly() returns (ok: bool)
      requires Writing() && recActive && W.Sound(Writer())
      modifies this`flash, this`images, this`wear, this`erasedUpto, this`pageOff, this`page, this`crc, this`dataLen,
               this`wbuf, this`wrOff, this`dropped, this`wrNdefs, this`wrIndex, this`rec, this`recActive
      ensures Writing() && (Writer(), ok) == W.Close(old(Writer()))
      ensures Barren(old(images), images)
    {
      hide Steady, NoSet, LogOf, W.Finish;
      recActive := false;
      if recFailed {
        Drop();
        return false;
      }
      RoundBox();
      ok := FinishRecord(rec);
    }

    // ---- the public write operations ----

    /** A set is being built: the writer refines the plain map `abs`. */
    ghost predicate Building()
      reads this
    {
      && writing && Writing() && W.Refines(Writer(), abs)
      && ReadOff()
    }

    /** While a set is being written there is none to read. */
    ghost predicate ReadOff()
      reads this`id, this`wrId, this`present, this`isOpen, this`crcState
    {
      |id| == |wrId| == ID_BYTES && wrId[ID_BYTES - 1] == 0 && !present && !isOpen && crcState <= 2
    }

    /** geom_store_set_id: only the set being written takes it. */
    method SetId(staticId: seq<Byte>)
      requires if writing then Building() else Powered()
      modifies this`wrId
      ensures if writing then Building() else Powered()
      ensures wrId == if writing then CopyId(old(wrId), staticId) else old(wrId)
    {
      hide Writing, W.Refines, CopyId, ReadSide;
      if writing { wrId := CopyId(wrId, staticId); }
    }

    /** geom_store_set_resolution: a set for another resolution closes. */
    method SetResolution(w: Word, h: Word)
      requires (if writing then Building() else Powered()) && w < 0x1_0000 && h < 0x1_0000
      modifies this`resWh, this`isOpen
      ensures if writing then Building() else Powered()
      ensures resWh == w * 0x1_0000 + h
      ensures isOpen == (old(isOpen) && Suits(setWh, resWh))
    {
      hide Writing, W.Refines, Boot, CrcOk, FieldsOk;
      resWh := w * 0x1_0000 + h;
      if isOpen && resWh != 0 && setWh != resWh { isOpen := false; }
    }

    method AddCircle(id: nat, cx: Int32, cy: Int32, r: Int32) returns (ok: bool)
      requires Building() && r > -0x8000_0000
      modifies this`flash, this`images, this`wear, this`erasedUpto, this`pageOff, this`page, this`crc, this`dataLen,
               this`wbuf, this`wrOff, this`dropped, this`wrNdefs, this`wrIndex, this`rec, this`recActive, this`recFailed,
               this`recDataOff, this`abs
      ensures Building() && abs == W.AbsStep(old(abs), W.AddCircle(id, cx, cy, r), ok)
      ensures (Writer(), ok) == W.Call(old(Writer()), W.AddCircle(id, cx, cy, r))
      ensures Barren(old(images), images)
    {
      hide Writing, Log, NoSet, W.AddWhole, W.Refines, W.AbsStep, CircleItem, ReadOff;
      ghost var op := W.AddCircle(id, cx, cy, r);
      W.ApplyRefines(Writer(), abs, op);
      if recActive || id >= MAX_DEFS {
        RefusedKeeps(abs, op);
        return false;
      }
      CircleOk(id, cx, cy, r);
      ok := AddWhole(CircleItem(id, cx, cy, r));
      abs := W.AbsStep(abs, op, ok);
    }

    method AddGroup(id: nat, members: seq<Word>) returns (ok: bool)
      requires Building()
      modifies this`flash, this`images, this`wear, this`erasedUpto, this`pageOff, this`page, this`crc, this`dataLen,
               this`wbuf, this`wrOff, this`dropped, this`wrNdefs, this`wrIndex, this`rec, this`recActive, this`recFailed,
               this`recDataOff, this`abs
      ensures Building() && abs == W.AbsStep(old(abs), W.AddGroup(id, members), ok)
      ensures (Writer(), ok) == W.Call(old(Writer()), W.AddGroup(id, members))
      ensures Barren(old(images), images)
    {
      hide Writing, Log, NoSet, W.AddWhole, W.Refines, W.AbsStep, ReadOff;
      ghost var op := W.AddGroup(id, members);
      W.ApplyRefines(Writer(), abs, op);
      if recActive || id >= MAX_DEFS || |members| > GROUP_MAX {
        RefusedKeeps(abs, op);
        return false;
      }
      ok := AddWhole(GroupItem(id, members));
      abs := W.AbsStep(abs, op, ok);
    }

    method BeginPoly(id: nat) returns (ok: bool)
      requires Building()
      modifies this`flash, this`images, this`wear, this`erasedUpto, this`pageOff, this`page, this`crc, this`dataLen,
               this`wbuf, this`wrOff, this`dropped, this`wrNdefs, this`wrIndex, this`rec, this`recActive, this`recFailed,
               this`recDataOff, this`abs
      ensures Building() && abs == W.AbsStep(old(abs), W.BeginPoly(id), ok)
      ensures (Writer(), ok) == W.Call(old(Writer()), W.BeginPoly(id))
      ensures images == old(images)
    {
      hide Writing, Log, NoSet, W.StartPoly, W.Refines, W.AbsStep, ReadOff;
      ghost var op := W.BeginPoly(id);
      W.ApplyRefines(Writer(), abs, op);
      if recActive || id >= MAX_DEFS {
        RefusedKeeps(abs, op);
        return false;
      }
      StartPoly(id);
      abs := W.AbsStep(abs, op, true);
      return true;
    }

    method StartPoly(id: nat)
      requires Writing()
      modifies this`rec, this`recActive, this`recFailed, this`recDataOff
      ensures Writer() == W.StartPoly(old(Writer()), id)
    {
      hide Writing, Log;
      AtEnd();
      rec := W.NO_REC.(id := id, kind := POLY);
      recDataOff := wrOff + |wbuf|;
      recActive, recFailed := true, false;
    }

    method AddVertex(v: Vertex) returns (ok: bool)
      requires Building()
      modifies this`flash, this`images, this`wear, this`erasedUpto, this`pageOff, this`page, this`crc, this`dataLen,
               this`wbuf, this`wrOff, this`dropped, this`wrNdefs, this`wrIndex, this`rec, this`recActive, this`recFailed,
               this`recDataOff, this`abs
      ensures Building() && abs == W.AbsStep(old(abs), W.AddVertex(v), ok)
      ensures (Writer(), ok) == W.Call(old(Writer()), W.AddVertex(v))
      ensures Barren(old(images), images)
    {
      hide Writing, Log, NoSet, W.AddVertexTo, W.Refines, W.AbsStep, ReadOff;
      ghost var op := W.AddVertex(v);
      W.ApplyRefines(Writer(), abs, op);
      if !recActive || recFailed {
        RefusedKeeps(abs, op);
        return false;
      }
      ok := PutMarked(v);
      abs := W.AbsStep(abs, op, ok);
    }

    method EndPoly() returns (ok: bool)
      requires Building()
      modifies this`flash, this`images, this`wear, this`erasedUpto, this`pageOff, this`page, this`crc, this`dataLen,
               this`wbuf, this`wrOff, this`dropped, this`wrNdefs, this`wrIndex, this`rec, this`recActive, this`recFailed,
               this`recDataOff, this`abs
      ensures Building() && abs == W.AbsStep(old(abs), W.EndPoly, ok)
      ensures (Writer(), ok) == W.Call(old(Writer()), W.EndPoly)
      ensures Barren(old(images), images)
    {
      hide Writing, Log, NoSet, W.Close, W.Refines, W.AbsStep, ReadOff;
      W.ApplyRefines(Writer(), abs, W.EndPoly);
      ActiveIffOpen(Writer(), abs);
      if !recActive {
        RefusedKeeps(abs, W.EndPoly);
        return false;
      }
      ok := ClosePoly();
      abs := W.AbsStep(abs, W.EndPoly, ok);
    }

    // ---- geom_flash.c: begin, commit, abort, open ----

    /** Holds whenever no set is being written. */
    ghost predicate Powered()
      reads this
    {
      && Device() && |id| == |wrId| == ID_BYTES && wrId[ID_BYTES - 1] == 0 && RecOk(rec) && rec.id < MAX_DEFS
      && ReadSide()
    }

    /** What the object believes of the flash is so: an open set is present and for the resolution in
        force, a present set is the one in
        flash, and once the data's CRC was taken its verdict still stands. */
    ghost predicate ReadSide()
      requires Device()
      reads this`flash, this`images, this`wear, this`isOpen, this`present, this`rdIndexSet, this`rdDataEnd, this`id, this`ndefs,
            this`setWh, this`resWh, this`crcState
    {
      && (isOpen ==> present && Suits(setWh, resWh))
      && (present ==> rdIndexSet && rdDataEnd >= 4 * HDR && Boot(flash) == Some(Shown()))
      && crcState <= 2
      && (crcState == 1 && FieldsOk(ReadHeader(flash)) ==> CrcOk(flash))
      && (crcState == 2 ==> Boot(flash) == None)
    }

    /** The set the read-side fields and the index in flash describe. */
    ghost function Shown(): Set
      requires Device() && rdDataEnd >= 4 * HDR
      reads this`flash, this`images, this`wear, this`rdDataEnd, this`id, this`ndefs, this`setWh
    {
      Set(id, ndefs, setWh, flash[FIXED..HDR_WORDS], rdDataEnd - 4 * HDR)
    }

    /** Nothing between begin and commit leaves a set behind: the old one dies with the first sector. */
    method Begin(staticId: seq<Byte>, scratchWords: nat) returns (ok: bool)
      requires if writing then Building() else Powered()
      modifies this
      ensures ok == (!old(writing) && scratchWords >= MAX_DEFS + W.WBUF)
      ensures ok ==> Building() && abs == W.Abs(map[], None) && W.Alike(Writer(), W.Begin(DATA_MAX, HDR, W.NO_REC, 0))
      ensures ok ==> wrId == CopyId(old(wrId), staticId) && !present && !isOpen
      ensures ok ==> old(images) < images && Barren(old(images), images)
      ensures !ok ==> images == old(images) && writing == old(writing) && if writing then Building() else Powered()
      ensures resWh == old(resWh)
    {
      hide NoSet, CopyId, Writing, W.Refines, W.Alike;
      if writing { return false; }
      if scratchWords < MAX_DEFS + W.WBUF { return false; }
      StartSet(staticId);
      return true;
    }

    method StartSet(staticId: seq<Byte>)
      requires Powered()
      modifies this
      ensures Building() && abs == W.Abs(map[], None) && W.Alike(Writer(), W.Begin(DATA_MAX, HDR, W.NO_REC, 0))
      ensures wrId == CopyId(old(wrId), staticId) && !present && !isOpen && resWh == old(resWh)
      ensures old(images) < images && Barren(old(images), images)
    {
      hide NoSet, CopyId, W.Refines, Writing, W.Begin, W.Alike, Powered, ReadOff, Barren;
      SetFacts();
      OpenRegion(staticId);
      CloseOld();
      abs := W.Abs(map[], None);
      W.BeginRefines(DATA_MAX, HDR, rec, Writer().dataOff);
      W.BeginAlike(DATA_MAX, HDR, rec, Writer().dataOff);
    }

    lemma SetFacts()
      requires Powered()
      ensures Device() && |id| == |wrId| == ID_BYTES && wrId[ID_BYTES - 1] == 0 && RecOk(rec) && rec.id < MAX_DEFS && crcState <= 2
    {
    }

    method CloseOld()
      requires |id| == |wrId| == ID_BYTES && wrId[ID_BYTES - 1] == 0 && crcState <= 2
      modifies this`present, this`isOpen, this`rdIndexSet
      ensures ReadOff() && !present && !isOpen
    {
      present, isOpen, rdIndexSet := false, false, false;
    }

    method OpenRegion(staticId: seq<Byte>)
      requires Device() && |wrId| == ID_BYTES
      modifies this`flash, this`images, this`wear, this`erasedUpto, this`pageOff, this`page, this`crc, this`dataLen,
               this`wrIndex, this`wbuf, this`recActive, this`recFailed, this`wrOff, this`wrNdefs, this`dropped, this`wrId,
               this`writing
      ensures Writing() && writing && wrId == CopyId(old(wrId), staticId)
      ensures Writer() == W.Begin(DATA_MAX, HDR, rec, Writer().dataOff)
      ensures old(images) < images && Barren(old(images), images)
    {
      hide NoSet, CopyId, Steady, LogOf;
      CommonBegin(staticId);
      EraseHeader();
    }

    /** geom_common_begin. */
    method CommonBegin(staticId: seq<Byte>)
      requires |wrId| == ID_BYTES
      modifies this`wrIndex, this`wbuf, this`recActive, this`recFailed, this`wrOff, this`wrNdefs, this`dropped, this`wrId,
               this`writing
      ensures writing && wrId == CopyId(old(wrId), staticId) && wrOff == HDR && wbuf == []
      ensures wrIndex == seq(MAX_DEFS, _ => ABSENT) && !recActive && !recFailed && wrNdefs == 0 && dropped == 0
    {
      wrIndex := seq(MAX_DEFS, _ => ABSENT);
      wbuf := [];
      recActive, recFailed, wrOff, wrNdefs, dropped := false, false, HDR, 0, 0;
      wrId := CopyId(wrId, staticId);
      writing := true;
    }

    method EraseHeader()
      requires Device()
      modifies this`flash, this`images, this`wear, this`erasedUpto, this`pageOff, this`page, this`crc, this`dataLen
      ensures Steady() && Log() == []
      ensures old(images) < images && Barren(old(images), images)
    {
      hide NoSet, Bytes, CrcRaw;
      FlashErase(0, HDR);
      page, pageOff, erasedUpto, crc, dataLen := [], HDR, HDR, 0, 0;
      EmptyCrc();
    }

    method EndWrite()
      modifies this`writing, this`recActive, this`wbuf
      ensures !writing && !recActive && wbuf == []
    {
      writing, recActive, wbuf := false, false, [];
    }

    method Abort()
      requires if writing then Building() else Powered()
      modifies this`writing, this`recActive, this`wbuf
      ensures Powered() && !writing && images == old(images)
    {
      if writing {
        Unreadable();
        EndWrite();
      }
    }

    /** With the header erased nothing the object remembers can be wrong. */
    lemma Unreadable()
      requires Building()
      ensures Device() && ReadSide() && |id| == |wrId| == ID_BYTES && wrId[ID_BYTES - 1] == 0 && RecOk(rec) && rec.id < MAX_DEFS
    {
      hide Boot, CrcOk;
      SteadyFacts();
      Counts();
      HeaderBlank(flash, pageOff, erasedUpto);
      UnmarkedIsNoSet(flash);
    }

    /** Pads and programs the last page: the whole log is then in flash. */
    method FlushTail() returns (ok: bool)
      requires Steady() && |Log()| <= DATA_MAX
      modifies this`flash, this`images, this`wear, this`erasedUpto, this`pageOff, this`page
      ensures ok && Ready() && HDR + |old(Log())| <= pageOff
      ensures flash[HDR..HDR + |old(Log())|] == old(Log())
      ensures Barren(old(images), images)
    {
      hide Frontier, Unworn, Barren, Running, Programmed, LogOf;
      ghost var log := Log();
      LogLength(flash, page, pageOff);
      BarrenNone(images);
      if page != [] {
        var pad := seq(PAGE - |page|, _ => ERASED);
        LogGrows(flash, page, pageOff, pad);
        page := page + pad;
        ok := FlushPage();
        if !ok { return; }
      }
      ok := true;
      LogLanded(flash, pageOff);
      Prefix(flash, pageOff, log);
    }

    static lemma LogLanded(f: seq<Word>, pageOff: nat)
      ensures LogOf(f, [], pageOff) == Programmed(f, pageOff)
    {
    }

    /** The header pages, last first, so that the magic number is programmed at the very end. */
    method ProgramHeader(h: Header)
      requires Device() && HeaderOk(h) && Blank(flash, 0, HDR) && Fresh(wear, 0, HDR / PAGE)
      modifies this`flash, this`images, this`wear, this`page
      ensures Device() && HeaderDown(flash, h, 0) && flash[HDR..] == old(flash[HDR..])
      ensures BarrenButLast(old(images), images)
      ensures forall p :: HDR / PAGE <= p < |wear| ==> wear[p] == old(wear[p])
    {
      hide NoSet, HeaderWords, NorFlash.Program;
      var p: nat := HDR_PAGES;
      while p > 0
        invariant p <= HDR_PAGES && Device() && HeaderDown(flash, h, p) && flash[HDR..] == old(flash[HDR..])
        invariant old(images) <= images
        invariant if p > 0 then AllNoSet(images, |old(images)|)
                  else |old(images)| < |images| && AllNoSet(images[..|images| - 1], |old(images)|)
        invariant Fresh(wear, 0, p)
        invariant forall q :: HDR / PAGE <= q < |wear| ==> wear[q] == old(wear[q])
      {
        p := p - 1;
        HeaderPageDown(flash, h, p + 1);
        page := HeaderPage(h, p);
        FlashProgram(p * PAGE, page);
        if p > 0 {
          assert flash[0] == ERASED;
          UnmarkedIsNoSet(flash);
        }
      }
    }

    lemma SteadyFacts()
      requires Steady()
      ensures Device() && dataLen == 4 * |Log()|
    {
    }

    /** What a commit builds: the set a reader then finds. */
    ghost function Pending(): Set
      reads this
    {
      Set(wrId, wrNdefs, resWh, wrIndex, dataLen)
    }

    /** Programs the tail of the data and then the header. Every image before the last shows no set;
        the last one boots into the pending set, with its data in place. */
    method ProgramSet() returns (ok: bool)
      requires Writing() && wbuf == [] && |wrIndex| == MAX_DEFS && wrNdefs <= MAX_DEFS
      requires |wrId| == ID_BYTES && CString(wrId) && wrId[ID_BYTES - 1] == 0
      modifies this`flash, this`images, this`wear, this`erasedUpto, this`pageOff, this`page
      ensures ok && Device() && Boot(flash) == Some(old(Pending()))
      ensures HDR + |old(Log())| <= REGION && flash[HDR..HDR + |old(Log())|] == old(Log())
      ensures BarrenButLast(old(images), images)
    {
      hide NoSet, HeaderDown, Bytes, Crc, Boot, Frontier, Barren, BarrenButLast;
      ghost var log := Log();
      ok := FlushTail();
      if !ok { return; }
      ghost var flushed := images;
      var h := Header(MAGIC, VERSION, wrId, wrNdefs, dataLen, crc, resWh, wrIndex);
      HeaderBlank(flash, pageOff, erasedUpto);
      ghost var f := flash;
      ProgramHeader(h);
      SameTail(f, flash, log);
      assert h.id[ID_BYTES - 1 := 0] == h.id;
      CompleteBoots(flash, h, log);
      BarrenThen(old(images), flushed, images);
    }

    /** The pending set reaches the flash: every id then answers with the last record finished. */
    method Publish() returns (ok: bool)
      requires Building() && wrId[0] != 0 && !recActive
      modifies this`flash, this`images, this`wear, this`erasedUpto, this`pageOff, this`page, this`crc, this`dataLen,
               this`wbuf, this`wrOff
      ensures ok && Device() && dataLen == old(dataLen)
      ensures BarrenButLast(old(images), images)
      ensures Boot(flash) == Some(old(Pending()))
      ensures forall i :: Look(flash, i) == Recorded(old(abs).defs, i)
    {
      hide NoSet, Steady, W.Refines, Boot, Look, LogOf;
      SteadyFacts();
      ClosedIsFlushed(Writer(), abs);
      ok := FlushBuf();
      if !ok { return; }
      SteadyFacts();
      ghost var w, a, s := Writer(), abs, Pending();
      ok := ProgramSet();
      CommittedLooks(flash, w, a, s);
    }

    method Commit() returns (ok: bool)
      requires if writing then Building() else Powered()
      modifies this
      ensures Powered() && !writing && resWh == old(resWh)
      ensures ok == (old(writing) && old(wrId[0]) != 0 && !old(recActive))
      ensures !ok ==> images == old(images) && isOpen == old(isOpen)
      ensures ok ==> BarrenButLast(old(images), images)
      ensures ok ==> Boot(flash) == Some(old(Pending()))
      ensures ok ==> forall i :: Look(flash, i) == Recorded(old(abs).defs, i)
      ensures ok ==> Opened(old(wrId), |old(abs).defs|, old(dataLen))
    {
      hide Building, Powered, Boot, Look, BarrenButLast, Opened, Pending;
      if !writing { return false; }
      StillBuilding();
      if wrId[0] == 0 || recActive {
        Abandon();
        return false;
      }
      CommitSet();
      return true;
    }

    method Abandon()
      requires Building()
      modifies this`writing, this`recActive, this`wbuf
      ensures Powered() && !writing
    {
      hide ReadSide, W.Refines, Steady, Writer;
      Unreadable();
      EndWrite();
    }

    /** Nothing is buffered between records and a started page always has room, so this cannot fail. */
    method CommitSet()
      requires Building() && wrId[0] != 0 && !recActive
      modifies this
      ensures Powered() && !writing && BarrenButLast(old(images), images) && resWh == old(resWh)
      ensures Boot(flash) == Some(old(Pending()))
      ensures forall i :: Look(flash, i) == Recorded(old(abs).defs, i)
      ensures Opened(old(wrId), |old(abs).defs|, old(dataLen))
    {
      hide NoSet, Steady, W.Refines, Boot, Look, LogOf, Writer, BarrenButLast, Opened, ReadSide;
      Counts();
      var ok := Publish();
      OpenCommitted();
    }

    lemma Counts()
      requires Building()
      ensures Device() && wrNdefs == |abs.defs| && RecOk(rec) && rec.id < MAX_DEFS && |wrId| == ID_BYTES
    {
      SteadyFacts();
      ClosedIsFlushed(Writer(), abs);
    }

    /** The committed set is the one being read. */
    ghost predicate Opened(i: seq<Byte>, n: nat, len: nat)
      reads this`rdIndexSet, this`rdDataEnd, this`ndefs, this`setWh, this`resWh, this`id, this`present, this`isOpen, this`crcState
    {
      && rdIndexSet && rdDataEnd == 4 * HDR + len && ndefs == n && setWh == resWh && id == i
      && present && isOpen && crcState == 1
    }

    /** The read-side fields after a successful commit. */
    method OpenCommitted()
      requires |wrId| == ID_BYTES && Device() && Boot(flash) == Some(Pending())
      modifies this`rdIndexSet, this`rdDataEnd, this`ndefs, this`setWh, this`id, this`present, this`isOpen, this`crcState,
               this`writing, this`recActive, this`wbuf
      ensures Opened(wrId, wrNdefs, dataLen) && !writing && !recActive && wbuf == [] && id == wrId && ReadSide()
    {
      hide Boot, CrcOk, FieldsOk, ReadSide, Opened;
      ShowWritten();
      EndWrite();
      ShowsWritten();
    }

    lemma ShowsWritten()
      requires Device() && Boot(flash) == Some(Pending()) && id == wrId && Opened(wrId, wrNdefs, dataLen)
      ensures ReadSide()
    {
      hide Boot, CrcOk, FieldsOk;
      BootFields(flash);
    }

    method ShowWritten()
      modifies this`rdIndexSet, this`rdDataEnd, this`ndefs, this`setWh, this`id, this`present, this`isOpen, this`crcState
      ensures Opened(wrId, wrNdefs, dataLen) && id == wrId
    {
      rdIndexSet := true;
      rdDataEnd := 4 * HDR + dataLen;
      ndefs, setWh, id, present, isOpen, crcState := wrNdefs, resWh, wrId, true, true, 1;
    }

    // ---- reading ----

    /** load_header: the fields a reader checks, and once per boot the CRC of the data. Whatever was
        found of the data earlier, the answer is whether the flash holds a set. */
    method LoadHeader() returns (ok: bool)
      requires Powered() && !present
      modifies this`crcState, this`rdIndexSet, this`rdDataEnd, this`ndefs, this`setWh, this`id
      ensures Powered() && ok == Boot(flash).Some?
      ensures ok ==> rdIndexSet && rdDataEnd >= 4 * HDR && Boot(flash) == Some(Shown())
    {
      hide CrcOk, FieldsOk, Powered, SetFrom;
      PoweredIsDevice();
      var h := ReadHeader(flash);
      FieldTests(h);
      if h.magic != MAGIC || h.version != VERSION { return false; }
      if h.ndefs > MAX_DEFS || h.dataLen > 4 * DATA_MAX { return false; }
      if 0 !in h.id || h.id[0] == 0 { return false; }
      CheckData(h);
      if crcState != 1 { return false; }
      TakeOver(h);
      return true;
    }

    /** The read-side fields from a header that was accepted. */
    method TakeOver(h: Header)
      requires Powered() && !present && h == ReadHeader(flash) && FieldsOk(h) && CrcOk(flash)
      modifies this`rdIndexSet, this`rdDataEnd, this`ndefs, this`setWh, this`id
      ensures Powered() && rdIndexSet && rdDataEnd >= 4 * HDR && Boot(flash) == Some(Shown())
    {
      hide CrcOk;
      rdIndexSet := true;
      rdDataEnd := 4 * HDR + h.dataLen;
      ndefs, setWh, id := h.ndefs, h.outWh, h.id[ID_BYTES - 1 := 0];
    }

    /** The CRC of the data, taken once per boot. */
    method CheckData(h: Header)
      requires Powered() && !present && h == ReadHeader(flash) && FieldsOk(h)
      modifies this`crcState
      ensures Powered() && crcState == if CrcOk(flash) then 1 else 2
    {
      hide Bytes, Crc, DataBytes;
      if crcState == 0 {
        var c := Crc32Update(0, DataBytes(flash, h.dataLen));
        crcState := if c == h.crc then 1 else 2;
      }
    }

    /** geom_store_open: true exactly for the id and resolution of the set in flash. What is read from
        then on is that set. */
    method Open(staticId: seq<Byte>) returns (ok: bool)
      requires if writing then Building() else Powered()
      modifies this`isOpen, this`present, this`crcState, this`rdIndexSet, this`rdDataEnd, this`ndefs, this`setWh, this`id
      ensures if writing then Building() else Powered()
      ensures ok == isOpen && (writing ==> !ok)
      ensures !writing ==> present == Boot(flash).Some?
      ensures !writing ==> (ok <==> Boot(flash).Some? && IdIs(Boot(flash).value.id, staticId) && Suits(Boot(flash).value.wh, resWh))
      ensures !writing && old(present) ==> unchanged(`id, `ndefs, `setWh, `rdDataEnd, `rdIndexSet, `crcState)
    {
      hide Boot, Writing, W.Refines, IdIs, ReadSide;
      if writing {
        isOpen := false;
        return false;
      }
      FindSet();
      OpenFound(staticId);
      return isOpen;
    }

    /** The header is read unless a set is known to be present. */
    method FindSet()
      requires Powered() && !writing
      modifies this`isOpen, this`present, this`crcState, this`rdIndexSet, this`rdDataEnd, this`ndefs, this`setWh, this`id
      ensures Powered() && present == Boot(flash).Some?
      ensures old(present) ==> present && unchanged(`id, `ndefs, `setWh, `rdDataEnd, `rdIndexSet, `crcState)
    {
      hide Boot, CrcOk, FieldsOk;
      if !present {
        isOpen := false;
        present := LoadHeader();
      }
    }

    method OpenFound(staticId: seq<Byte>)
      requires Powered() && !writing && present == Boot(flash).Some?
      modifies this`isOpen
      ensures Powered()
      ensures isOpen <==> Boot(flash).Some? && IdIs(Boot(flash).value.id, staticId) && Suits(Boot(flash).value.wh, resWh)
    {
      hide Boot, CrcOk, FieldsOk, IdIs;
      isOpen := present && IdIs(id, staticId) && Suits(setWh, resWh);
    }

    /** geom_store_get on the live object: what the set in flash answers, or nothing while closed. */
    method GetRecord(i: nat) returns (r: Option<Item>)
      requires if writing then Building() else Powered()
      ensures r == if isOpen then Look(flash, i) else None
    {
      hide Boot, Writing, W.Refines, CrcOk, FieldsOk, Get;
      if !isOpen || !rdIndexSet { return None; }
      BootFields(flash);
      return Get(flash, flash[FIXED..HDR_WORDS], HDR, rdDataEnd, i);
    }

    /** A reset: the flash is all that survives. */
    method Reboot()
      requires Device()
      modifies this
      ensures Powered() && !writing && flash == old(flash) && images == old(images) && wear == old(wear)
      ensures !present && !isOpen && crcState == 0 && resWh == 0
    {
      ClearImpl();
      ClearWriter();
      ClearStore();
    }

    method ClearImpl()
      modifies this`page, this`pageOff, this`erasedUpto, this`crc, this`dataLen, this`crcState
      ensures crcState == 0
    {
      page, pageOff, erasedUpto, crc, dataLen, crcState := [], 0, 0, 0, 0, 0;
    }

    method ClearWriter()
      modifies this`wbuf, this`wrNdefs, this`dropped, this`wrOff, this`recActive, this`recFailed, this`recDataOff, this`rec
      ensures rec == W.NO_REC
    {
      wbuf, wrNdefs, dropped, wrOff := [], 0, 0, 0;
      recActive, recFailed, recDataOff, rec := false, false, 0, W.NO_REC;
    }

    method ClearStore()
      modifies this`present, this`isOpen, this`rdIndexSet, this`rdDataEnd, this`ndefs, this`setWh, this`resWh, this`id,
               this`wrId, this`writing
      ensures resWh == 0
      ensures !present && !isOpen && !writing && |id| == |wrId| == ID_BYTES && wrId[ID_BYTES - 1] == 0
    {
      present, isOpen, rdIndexSet, writing := false, false, false, false;
      rdDataEnd, ndefs, setWh, resWh := 0, 0, 0, 0;
      id, wrId := seq(ID_BYTES, _ => 0), seq(ID_BYTES, _ => 0);
    }

    // ---- a whole transfer ----

    /** One of the calls the decoder makes while a set streams in. */
    method Do(op: W.Op) returns (ok: bool)
      requires Building() && W.OpOk(op)
      modifies this`flash, this`images, this`wear, this`erasedUpto, this`pageOff, this`page, this`crc, this`dataLen,
               this`wbuf, this`wrOff, this`dropped, this`wrNdefs, this`wrIndex, this`rec, this`recActive, this`recFailed,
               this`recDataOff, this`abs
      ensures Building() && abs == W.AbsStep(old(abs), op, ok) && (Writer(), ok) == W.Call(old(Writer()), op)
      ensures Barren(old(images), images)
    {
      hide Building, NoSet, W.Call, W.AbsStep, Writer;
      match op
      case AddCircle(i, cx, cy, r) => ok := AddCircle(i, cx, cy, r);
      case AddGroup(i, members) => ok := AddGroup(i, members);
      case BeginPoly(i) => ok := BeginPoly(i);
      case AddVertex(v) => ok := AddVertex(v);
      case EndPoly => ok := EndPoly();
    }

    /** The calls of a whole set, one after the other, on a set just begun. */
    method Stream(ops: seq<W.Op>)
      requires Building() && abs == W.Abs(map[], None) && W.Alike(Writer(), W.Begin(DATA_MAX, HDR, W.NO_REC, 0))
      requires forall op :: op in ops ==> W.OpOk(op)
      modifies this`flash, this`images, this`wear, this`erasedUpto, this`pageOff, this`page, this`crc, this`dataLen,
               this`wbuf, this`wrOff, this`dropped, this`wrNdefs, this`wrIndex, this`rec, this`recActive, this`recFailed,
               this`recDataOff, this`abs
      ensures Building() && abs == W.Written(DATA_MAX, HDR, ops).1 && Barren(old(images), images)
    {
      hide Building, NoSet, W.AbsStep, W.Alike, Writer, W.Call, W.Begin;
      for n := 0 to |ops|
        invariant Building() && Barren(old(images), images)
        invariant W.Alike(Writer(), W.Written(DATA_MAX, HDR, ops[..n]).0) && abs == W.Written(DATA_MAX, HDR, ops[..n]).1
      {
        BuildingRefines();
        W.WrittenNext(DATA_MAX, HDR, ops, n, Writer(), abs);
        var finished := Do(ops[n]);
      }
      assert ops[..|ops|] == ops;
    }

    /** A set replaced from beginning to end; its id is given at the start, or again later when it came
        late. Of all the images the flash passes through, the ones before this call are untouched,
        every later one but the last boots into no set, and the last, if the commit succeeds, boots
        into the new set and answers every id with the last record finished for it. A power cut can
        therefore never expose a mixture. Committed or not, no page was programmed over. */
    method Transfer(staticId: seq<Byte>, ops: seq<W.Op>, late: Option<seq<Byte>>) returns (ok: bool)
      requires Powered() && !writing && forall op :: op in ops ==> W.OpOk(op)
      modifies this
      ensures Powered() && !writing && BarrenButLast(old(images), images) && AtMostOnce(wear) && resWh == old(resWh)
      ensures ok <==> IdField(old(wrId), staticId, late)[0] != 0 && W.Written(DATA_MAX, HDR, ops).1.cur == None
      ensures !ok ==> NoSet(flash)
      ensures ok ==> forall i :: Look(flash, i) == Recorded(W.Written(DATA_MAX, HDR, ops).1.defs, i)
      ensures ok ==> Boot(flash).Some? && Boot(flash).value.id == IdField(old(wrId), staticId, late)
                     && Boot(flash).value.wh == resWh
                     && Opened(Boot(flash).value.id, |W.Written(DATA_MAX, HDR, ops).1.defs|, Boot(flash).value.dataLen)
      ensures isOpen == ok
    {
      hide Building, NoSet, Boot, Look, IdField, Recorded, W.Written, Writer, ReadSide, Barren, BarrenButLast, Powered;
      ghost var a := images;
      StreamIn(staticId, ops, late);
      ghost var b := images;
      StillBuilding();
      ok := Commit();
      PoweredIsDevice();
      Chained(a, b, images);
    }

    /** Everything before the commit. */
    method StreamIn(staticId: seq<Byte>, ops: seq<W.Op>, late: Option<seq<Byte>>)
      requires Powered() && !writing && forall op :: op in ops ==> W.OpOk(op)
      modifies this
      ensures Building() && abs == W.Written(DATA_MAX, HDR, ops).1 && wrId == IdField(old(wrId), staticId, late)
      ensures old(images) < images && Barren(old(images), images) && resWh == old(resWh)
    {
      hide Building, NoSet, CopyId, W.Alike, W.Written, Writer, W.Begin, ReadSide;
      var began := Begin(staticId, MAX_DEFS + W.WBUF);
      StillBuilding();
      Stream(ops);
      StillBuilding();
      if late.Some? { SetId(late.value); }
    }

    /** The same, with a power cut that leaves `image` in flash, and a read after the reboot, at the
        resolution the device then has. Wherever the cut falls the answer is nothing, what the old set
        answered, or, once the commit is through, what the new one answers. */
    method TransferThenCut(staticId: seq<Byte>, ops: seq<W.Op>, late: Option<seq<Byte>>, image: seq<Word>, w: Word, h: Word,
                           reopenId: seq<Byte>, i: nat)
      returns (done: bool, ok: bool, r: Option<Item>)
      requires Powered() && !writing && (forall op :: op in ops ==> W.OpOk(op)) && |image| == REGION && w < 0x1_0000 && h < 0x1_0000
      modifies this
      ensures ok <==> Boot(image).Some? && IdIs(Boot(image).value.id, reopenId) && Suits(Boot(image).value.wh, w * 0x1_0000 + h)
      ensures r == if ok then Look(image, i) else None
      ensures Passed(old(images), images, image) && ok ==> image == old(flash) || (done && image == flash)
      ensures Passed(old(images), images, image) ==>
                || r == None || r == Look(old(flash), i)
                || (done && r == Recorded(W.Written(DATA_MAX, HDR, ops).1.defs, i))
    {
      hide Boot, Look, CopyId, Recorded, Powered, W.Written, IdIs, Opened, Passed, BarrenButLast, AtMostOnce;
      PoweredIsDevice();
      ghost var before := images;
      done := Transfer(staticId, ops, late);
      PoweredIsDevice();
      CutExposes(before, images, image);
      var store := new GeomStore(image);
      store.SetResolution(w, h);
      ok := store.Open(reopenId);
      r := store.GetRecord(i);
    }

    lemma PoweredIsDevice()
      requires Powered()
      ensures |flash| == REGION && |images| > 0 && images[|images| - 1] == flash && AtMostOnce(wear) && |wrId| == ID_BYTES
    {
    }

    lemma BuildingRefines()
      requires Building()
      ensures W.Refines(Writer(), abs)
    {
    }

    lemma StillBuilding()
      requires Building()
      ensures Device() && writing && !isOpen && |wrId| == ID_BYTES && wrNdefs == |abs.defs| && (!recActive <==> abs.cur == None)
    {
      SteadyFacts();
      ClosedIsFlushed(Writer(), abs);
    }
  }

  lemma {:induction false} Chained(a: seq<seq<Word>>, b: seq<seq<Word>>, c: seq<seq<Word>>)
    requires a < b && Barren(a, b) && (c == b || BarrenButLast(b, c))
    ensures BarrenButLast(a, c) && (c == b ==> NoSet(c[|c| - 1]))
  {
    hide NoSet;
  }

  /** The flash held `image` at some moment between the two histories. */
  ghost predicate Passed(before: seq<seq<Word>>, after: seq<seq<Word>>, image: seq<Word>) {
    exists k :: |before| - 1 <= k < |after| && k >= 0 && after[k] == image
  }

  /** An image a set can be read from is the first or the last of a replacement. */
  lemma {:induction false} CutExposes(before: seq<seq<Word>>, after: seq<seq<Word>>, image: seq<Word>)
    requires |before| > 0 && BarrenButLast(before, after) && |image| == REGION
    ensures Passed(before, after, image) && Boot(image).Some? ==> image == before[|before| - 1] || image == after[|after| - 1]
  {
    hide Boot;
  }

  lemma BootFields(f: seq<Word>)
    requires |f| == REGION
    ensures Boot(f).Some? ==> FieldsOk(ReadHeader(f)) && CrcOk(f) && Boot(f).value.index == f[FIXED..HDR_WORDS]
    ensures Boot(f).Some? ==> Boot(f).value.dataLen <= 4 * DATA_MAX && |Boot(f).value.id| == ID_BYTES
  {
  }

  lemma FieldTests(h: Header)
    requires HeaderOk(h)
    ensures FieldsOk(h) <==> h.magic == MAGIC && h.version == VERSION && h.ndefs <= MAX_DEFS && h.dataLen <= 4 * DATA_MAX
                             && 0 in h.id && h.id[0] != 0
  {
  }

  lemma FlushEmpties(w: W.Writer)
    ensures W.Flush(w).1 ==> W.Flush(w).0.wbuf == []
    ensures !W.Flush(w).1 ==> W.Flush(w).0 == w
  {
  }

  lemma EmptyCrc()
    ensures Running([], 0, 0)
  {
    assert Bytes([]) == [];
    assert CrcRaw(Not(0), []) == Not(0);
  }

  lemma Prefix(f: seq<Word>, pageOff: nat, log: seq<Word>)
    requires HDR <= pageOff <= |f| && log <= Programmed(f, pageOff)
    ensures HDR + |log| <= pageOff && f[HDR..HDR + |log|] == log
  {
    assert f[HDR..pageOff][..|log|] == f[HDR..HDR + |log|];
  }

  /** What a map of finished records answers for an id. */
  function Recorded(defs: W.Defs, i: nat): Option<Item> {
    if i in defs && i < MAX_DEFS then Some(defs[i]) else None
  }

  lemma {:induction false} CommittedLooks(f: seq<Word>, w: W.Writer, a: W.Abs, s: Set)
    requires |f| == REGION && Boot(f) == Some(s) && W.Refines(w, a) && w.first == HDR
    requires HDR + |w.log| <= REGION && f[HDR..HDR + |w.log|] == w.log
    requires s.index == w.index && s.dataLen == 4 * |w.log|
    ensures forall i :: Look(f, i) == Recorded(a.defs, i)
  {
    forall i
      ensures Look(f, i) == Recorded(a.defs, i)
    {
      CompleteLooks(f, w, a, s, i);
    }
  }

  lemma HeaderBlank(f: seq<Word>, pageOff: nat, upto: nat)
    requires Frontier(f, pageOff, upto)
    ensures Blank(f, 0, HDR)
  {
  }

  lemma SameTail(f: seq<Word>, g: seq<Word>, log: seq<Word>)
    requires |f| == |g| && HDR + |log| <= |f| && f[HDR..] == g[HDR..] && f[HDR..HDR + |log|] == log
    ensures g[HDR..HDR + |log|] == log
  {
    assert f[HDR..][..|log|] == f[HDR..HDR + |log|];
    assert g[HDR..][..|log|] == g[HDR..HDR + |log|];
  }

  /** Between records nothing is buffered, and the definition count is that of the map. */
  lemma {:induction false} ClosedIsFlushed(w: W.Writer, a: W.Abs)
    requires W.Refines(w, a)
    ensures !w.active ==> w.wbuf == [] && a.cur == None
    ensures w.ndefs == |a.defs| <= MAX_DEFS && |w.index| == MAX_DEFS && W.Sound(w)
  {
    W.CountBounded(w, a.defs);
  }

  lemma CircleOk(id: nat, cx: Int32, cy: Int32, r: Int32)
    requires r > -0x8000_0000 && id < MAX_DEFS
    ensures ItemOk(CircleItem(id, cx, cy, r)) && CircleItem(id, cx, cy, r).rec.id == id
  {
  }

  lemma ActiveIffOpen(w: W.Writer, a: W.Abs)
    requires W.Refines(w, a)
    ensures w.active <==> a.cur.Some?
  {
  }

  /** A call that returns false, other than the one that drops the open polygon, finishes nothing. */
  lemma RefusedKeeps(a: W.Abs, op: W.Op)
    requires W.OpOk(op) && (op.EndPoly? ==> a.cur == None)
    ensures W.AbsStep(a, op, false) == a
  {
  }
}
