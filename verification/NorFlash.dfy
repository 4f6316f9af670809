/** The NOR flash region of the geometry store, the CRC over its data, and the header that makes a
    set readable (flash_store.c, geom_flash.c). Erasing sets bits, programming only clears them. */
module NorFlash {
  import opened Prelude
  import opened GeomWords

  // All sizes in 32-bit words.
  const PAGE := 64
  const SECTOR := 1024
  const BLOCK := 16384
  const HDR := 2048
  const REGION := 0xEF000 / 4
  const DATA_MAX := REGION - HDR
  const ERASED: Word := 0xFFFF_FFFF

  // ---- the chip ----

  function And(a: nat, b: nat, bits: nat): nat {
    if bits == 0 then 0 else 2 * And(a / 2, b / 2, bits - 1) + (a % 2) * (b % 2)
  }

  lemma {:induction false} AndBelow(a: nat, b: nat, bits: nat)
    ensures And(a, b, bits) < Pow2(bits)
  {
    if bits > 0 { AndBelow(a / 2, b / 2, bits - 1); }
  }

  lemma {:induction false} AndOnes(b: nat, bits: nat)
    requires b < Pow2(bits)
    ensures And(Pow2(bits) - 1, b, bits) == b
  {
    if bits > 0 {
      assert (Pow2(bits) - 1) / 2 == Pow2(bits - 1) - 1;
      AndOnes(b / 2, bits - 1);
    }
  }

  /** A bit is one after programming exactly when it was and is programmed as one. */
  lemma {:induction false} AndAt(a: nat, b: nat, bits: nat, k: nat)
    requires k < bits
    ensures BitAt(And(a, b, bits), k) == 1 <==> BitAt(a, k) == 1 && BitAt(b, k) == 1
    decreases bits
  {
    AndHalf(a, b, bits);
    hide And;
    if k > 0 { AndAt(a / 2, b / 2, bits - 1, k - 1); }
  }

  lemma AndHalf(a: nat, b: nat, bits: nat)
    requires bits > 0
    ensures And(a, b, bits) / 2 == And(a / 2, b / 2, bits - 1)
    ensures And(a, b, bits) % 2 == if a % 2 == 1 && b % 2 == 1 then 1 else 0
  {
    var r := a % 2 * (b % 2);
    assert 0 <= r < 2;
  }

  lemma Pow32()
    ensures Pow2(32) == 0x1_0000_0000
  {
    assert Pow2(8) == 256;
    assert Pow2(16) == 0x1_0000;
    assert Pow2(24) == 0x100_0000;
  }

  function AndWord(a: Word, b: Word): Word {
    AndBelow(a, b, 32);
    Pow32();
    And(a, b, 32)
  }

  lemma AndErased(b: Word)
    ensures AndWord(ERASED, b) == b
  {
    Pow32();
    AndOnes(b, 32);
  }

  function Erase(f: seq<Word>, off: nat, len: nat): (g: seq<Word>)
    ensures |g| == |f|
  {
    seq(|f|, i requires 0 <= i < |f| => if off <= i < off + len then ERASED else f[i])
  }

  function Program(f: seq<Word>, off: nat, data: seq<Word>): (g: seq<Word>)
    ensures |g| == |f|
  {
    seq(|f|, i requires 0 <= i < |f| => if off <= i < off + |data| then AndWord(f[i], data[i - off]) else f[i])
  }

  ghost predicate Blank(f: seq<Word>, lo: nat, hi: nat) {
    hi <= |f| && forall i :: lo <= i < hi ==> f[i] == ERASED
  }

  /** Programming erased words stores exactly the data. */
  lemma {:induction false} ProgramBlank(f: seq<Word>, off: nat, data: seq<Word>)
    requires Blank(f, off, off + |data|)
    ensures var g := Program(f, off, data);
            && g[off..off + |data|] == data
            && (forall i :: 0 <= i < |f| && !(off <= i < off + |data|) ==> g[i] == f[i])
  {
    forall i | off <= i < off + |data|
      ensures Program(f, off, data)[i] == data[i - off]
    {
      AndErased(data[i - off]);
    }
  }

  // ---- CRC-32 (IEEE 802.3, reflected) ----

  function Xor(a: nat, b: nat, bits: nat): nat {
    if bits == 0 then 0 else 2 * Xor(a / 2, b / 2, bits - 1) + (a % 2 + b % 2) % 2
  }

  lemma {:induction false} XorBelow(a: nat, b: nat, bits: nat)
    ensures Xor(a, b, bits) < Pow2(bits)
  {
    if bits > 0 { XorBelow(a / 2, b / 2, bits - 1); }
  }

  function XorWord(a: Word, b: Word): Word {
    XorBelow(a, b, 32);
    Pow32();
    Xor(a, b, 32)
  }

  function Not(c: Word): Word { 0xFFFF_FFFF - c }

  function CrcBit(c: Word): Word { if c % 2 == 1 then XorWord(c / 2, 0xEDB8_8320) else c / 2 }

  function CrcBits(c: Word, n: nat): Word { if n == 0 then c else CrcBit(CrcBits(c, n - 1)) }

  function CrcRaw(c: Word, data: seq<Byte>): Word {
    if data == [] then c
    else CrcBits(XorWord(CrcRaw(c, data[..|data| - 1]), data[|data| - 1]), 8)
  }

  function Crc(c: Word, data: seq<Byte>): Word { Not(CrcRaw(Not(c), data)) }

  lemma {:induction false} CrcRawAppend(c: Word, a: seq<Byte>, b: seq<Byte>)
    ensures CrcRaw(c, a + b) == CrcRaw(CrcRaw(c, a), b)
  {
    if b == [] {
      assert a + b == a;
    } else {
      var n := |b| - 1;
      assert (a + b)[..|a + b| - 1] == a + b[..n];
      CrcRawAppend(c, a, b[..n]);
    }
  }

  /** The running CRC of pieces is the CRC of the whole. */
  lemma {:induction false} CrcAppend(c: Word, a: seq<Byte>, b: seq<Byte>)
    ensures Crc(Crc(c, a), b) == Crc(c, a + b)
  {
    CrcRawAppend(Not(c), a, b);
  }

  method Crc32Update(crc: Word, data: seq<Byte>) returns (r: Word)
    ensures r == Crc(crc, data)
  {
    var c := Not(crc);
    for i := 0 to |data|
      invariant c == CrcRaw(Not(crc), data[..i])
    {
      assert data[..i + 1][..i] == data[..i];
      var c0 := XorWord(c, data[i]);
      c := c0;
      for b := 0 to 8
        invariant c == CrcBits(c0, b)
      {
        c := CrcBit(c);
      }
    }
    assert data[..|data|] == data;
    r := Not(c);
  }

  function WordBytes(w: Word): (b: seq<Byte>)
    ensures |b| == 4
  {
    [w % 256, w / 256 % 256, w / 256 / 256 % 256, w / 256 / 256 / 256]
  }

  /** The bytes of consecutive words, lowest address first. */
  function Bytes(ws: seq<Word>): (b: seq<Byte>)
    ensures |b| == 4 * |ws|
  {
    if ws == [] then [] else Bytes(ws[..|ws| - 1]) + WordBytes(ws[|ws| - 1])
  }

  /** A word's bytes go into the CRC lowest first. */
  lemma {:induction false} BytesAt(ws: seq<Word>, i: nat)
    requires i < |ws|
    ensures var (w, b) := (ws[i], Bytes(ws));
            b[4 * i] + 256 * (b[4 * i + 1] as nat) + 0x1_0000 * (b[4 * i + 2] as nat) + 0x100_0000 * (b[4 * i + 3] as nat) == w
  {
    if i < |ws| - 1 {
      BytesAt(ws[..|ws| - 1], i);
    } else {
      BytesOf(ws[i]);
    }
  }

  lemma BytesOf(w: Word)
    ensures var b := WordBytes(w);
            b[0] + 256 * (b[1] as nat) + 0x1_0000 * (b[2] as nat) + 0x100_0000 * (b[3] as nat) == w
  {
  }

  lemma {:induction false} BytesAppend(a: seq<Word>, b: seq<Word>)
    ensures Bytes(a + b) == Bytes(a) + Bytes(b)
  {
    if b == [] {
      assert a + b == a;
    } else {
      var n := |b| - 1;
      assert (a + b)[..|a + b| - 1] == a + b[..n];
      BytesAppend(a, b[..n]);
    }
  }

  lemma {:induction false} CrcOfWords(a: seq<Word>, b: seq<Word>)
    ensures Crc(Crc(0, Bytes(a)), Bytes(b)) == Crc(0, Bytes(a + b))
  {
    BytesAppend(a, b);
    CrcAppend(0, Bytes(a), Bytes(b));
  }

  // ---- the header ----

  const MAGIC: Word := 0x4F45474B
  const VERSION: Word := 4
  const ID_BYTES := 32
  const FIXED := 14
  const HDR_WORDS := FIXED + MAX_DEFS
  const HDR_PAGES := (HDR_WORDS + PAGE - 1) / PAGE

  datatype Header = Header(magic: Word, version: Word, id: seq<Byte>, ndefs: Word, dataLen: Word, crc: Word,
                           outWh: Word, index: seq<Word>)

  predicate HeaderOk(h: Header) { |h.id| == ID_BYTES && |h.index| == MAX_DEFS }

  function Pack(id: seq<Byte>): (ws: seq<Word>)
    requires |id| == ID_BYTES
    ensures |ws| == 8
  {
    seq(8, k requires 0 <= k < 8 => WordOf(id[4 * k], id[4 * k + 1], id[4 * k + 2], id[4 * k + 3]))
  }

  function WordOf(a: Byte, b: Byte, c: Byte, d: Byte): Word { a + 256 * (b + 256 * (c + 256 * d)) }

  function HeaderWords(h: Header): (ws: seq<Word>)
    requires HeaderOk(h)
    ensures |ws| == HDR_WORDS
  {
    [h.magic, h.version] + Pack(h.id) + [h.ndefs, h.dataLen, h.crc, h.outWh] + h.index
  }

  function ReadHeader(f: seq<Word>): (h: Header)
    requires |f| >= HDR_WORDS
    ensures HeaderOk(h)
  {
    Header(f[0], f[1], Bytes(f[2..10]), f[10], f[11], f[12], f[13], f[FIXED..HDR_WORDS])
  }

  lemma DivMod256(a: Byte, k: nat)
    ensures (a + 256 * k) % 256 == a && (a + 256 * k) / 256 == k
  {
  }

  lemma PackWord(a: Byte, b: Byte, c: Byte, d: Byte)
    ensures WordBytes(WordOf(a, b, c, d)) == [a, b, c, d]
  {
    DivMod256(a, b + 256 * (c + 256 * d));
    DivMod256(b, c + 256 * d);
    DivMod256(c, d);
  }

  lemma {:induction false} UnpackPrefix(id: seq<Byte>, k: nat)
    requires |id| == ID_BYTES && k <= 8
    ensures Bytes(Pack(id)[..k]) == id[..4 * k]
  {
    hide WordOf, WordBytes;
    if k > 0 {
      UnpackPrefix(id, k - 1);
      PackWord(id[4 * k - 4], id[4 * k - 3], id[4 * k - 2], id[4 * k - 1]);
      assert Pack(id)[..k][..k - 1] == Pack(id)[..k - 1];
      assert id[..4 * k] == id[..4 * k - 4] + [id[4 * k - 4], id[4 * k - 3], id[4 * k - 2], id[4 * k - 1]];
    }
  }

  /** A header read back from the words that were programmed is the header that was built. */
  lemma {:induction false} HeaderRoundTrip(h: Header, f: seq<Word>)
    requires HeaderOk(h) && |f| >= HDR_WORDS && f[..HDR_WORDS] == HeaderWords(h)
    ensures ReadHeader(f) == h
  {
    UnpackPrefix(h.id, 8);
    assert Pack(h.id)[..8] == Pack(h.id) && h.id[..32] == h.id;
    assert f[2..10] == f[..HDR_WORDS][2..10] == Pack(h.id);
    assert f[FIXED..HDR_WORDS] == f[..HDR_WORDS][FIXED..] == h.index;
    assert f[0] == f[..HDR_WORDS][0] && f[1] == f[..HDR_WORDS][1];
    assert forall k :: 10 <= k < FIXED ==> f[k] == f[..HDR_WORDS][k];
  }

  function HeaderPage(h: Header, p: nat): (page: seq<Word>)
    requires HeaderOk(h)
    ensures |page| == PAGE
  {
    seq<Word>(PAGE, i requires 0 <= i < PAGE => HeaderWord(h, p * PAGE + i))
  }

  /** Word o of the header image, 0xFF past the header. */
  function HeaderWord(h: Header, o: nat): Word
    requires HeaderOk(h)
  {
    if o < HDR_WORDS then HeaderWords(h)[o] else ERASED
  }

  // ---- a set as a reader finds it after a reset ----

  /** What load_header accepts: the set's id, definition count, resolution, index and data length. */
  datatype Set = Set(id: seq<Byte>, ndefs: nat, wh: Word, index: seq<Word>, dataLen: nat)

  predicate CString(id: seq<Byte>) { id != [] && id[0] != 0 && 0 in id }

  predicate FieldsOk(h: Header) {
    && h.magic == MAGIC && h.version == VERSION
    && h.ndefs <= MAX_DEFS && h.dataLen <= 4 * DATA_MAX
    && CString(h.id)
  }

  /** The data bytes the header in f speaks of. */
  function DataBytes(f: seq<Word>, len: nat): seq<Byte>
    requires |f| == REGION && len <= 4 * DATA_MAX
  {
    Bytes(f[HDR..])[..len]
  }

  predicate CrcOk(f: seq<Word>)
    requires |f| == REGION && FieldsOk(ReadHeader(f))
  {
    Crc(0, DataBytes(f, ReadHeader(f).dataLen)) == ReadHeader(f).crc
  }

  /** What a reader takes over; the id's last byte is a terminator, whatever the header holds there. */
  function SetFrom(h: Header): Set
    requires HeaderOk(h)
  {
    Set(h.id[ID_BYTES - 1 := 0], h.ndefs, h.outWh, h.index, h.dataLen)
  }

  function Boot(f: seq<Word>): (r: Option<Set>)
    requires |f| == REGION
    ensures r.Some? ==> |r.value.index| == MAX_DEFS && r.value.dataLen <= 4 * DATA_MAX && |r.value.id| == ID_BYTES
  {
    var h := ReadHeader(f);
    if FieldsOk(h) && CrcOk(f) then Some(SetFrom(h)) else None
  }

  /** The record a reader of this image finds for an id. */
  function Look(f: seq<Word>, id: nat): Option<Item>
    requires |f| == REGION
  {
    match Boot(f)
    case None => None
    case Some(s) => Get(f, s.index, HDR, 4 * HDR + s.dataLen, id)
  }

  /** Nothing on the device can be taken for a set. */
  ghost predicate NoSet(f: seq<Word>) { |f| == REGION && Boot(f) == None }

  lemma UnmarkedIsNoSet(f: seq<Word>)
    requires |f| == REGION && f[0] != MAGIC
    ensures NoSet(f)
  {
  }
}
