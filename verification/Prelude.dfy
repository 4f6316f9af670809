/** Shared vocabulary: bytes and words as C's uint8_t and uint32_t, optional results. */
module Prelude {
  type Byte = b: int | 0 <= b < 256
  type Word = w: int | 0 <= w < 0x1_0000_0000

  datatype Option<+T> = None | Some(value: T)

  function Min(a: nat, b: nat): nat {
    if a < b then a else b
  }

  function Pow2(n: nat): (p: nat)
    ensures p > 0
  {
    if n == 0 then 1 else 2 * Pow2(n - 1)
  }

  /** The binary digit of a at place k. */
  function BitAt(a: nat, k: nat): (b: nat)
    ensures b < 2
  {
    if k == 0 then a % 2 else BitAt(a / 2, k - 1)
  }

  function Pow10(n: nat): (p: nat)
    ensures p >= 1
  {
    if n == 0 then 1 else 10 * Pow10(n - 1)
  }

  function Repeat<T>(x: T, n: nat): (r: seq<T>)
    ensures |r| == n
  {
    seq<T>(n, _ => x)
  }

  /** Pieces of a text, one after the other. */
  function Flat(pieces: seq<seq<Byte>>): seq<Byte> {
    if pieces == [] then [] else Flat(pieces[..|pieces| - 1]) + pieces[|pieces| - 1]
  }

  // ---- characters ----------------------------------------------------------------------------

  predicate IsDigit(c: Byte) {
    '0' as int <= c <= '9' as int
  }

  predicate IsSign(c: Byte) {
    c == '+' as int || c == '-' as int
  }

  predicate IsE(c: Byte) {
    c == 'e' as int || c == 'E' as int
  }

  function HexValue(c: Byte): (r: Option<nat>)
    ensures r.Some? ==> r.value < 16
  {
    if IsDigit(c) then Some(c - '0' as int)
    else if 'a' as int <= c <= 'f' as int then Some(c - 'a' as int + 10)
    else if 'A' as int <= c <= 'F' as int then Some(c - 'A' as int + 10)
    else None
  }

  function DigitOf(c: Byte): (d: nat)
    ensures d < 10
  {
    if IsDigit(c) then c - '0' as int else 0
  }

  /** The digits, decimal and hexadecimal, in the order of their values. */
  lemma DigitValues(c: Byte, v: nat)
    requires v < 16
    ensures HexValue(c) == Some(v) <==> c == "0123456789abcdef"[v] as int || c == "0123456789ABCDEF"[v] as int
    ensures v < 10 ==> ((IsDigit(c) && DigitOf(c) == v) <==> c == "0123456789"[v] as int)
  {
  }

  /** The number a string of decimal digits denotes. */
  function Val(s: seq<Byte>): nat {
    if s == [] then 0 else 10 * Val(s[..|s| - 1]) + DigitOf(s[|s| - 1])
  }
}
