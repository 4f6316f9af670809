/** The pair table: ids 256..511 for mixed pairs of palette indices, found through an open-addressed
    hash of 1024 slots. */
module WordRunPairs {
  import opened Prelude
  import opened WordRun

  const FREE_IDS := 256

  /** A pair as the hash key. */
  function Key(a: Byte, b: Byte): (k: nat)
    ensures k < 0x1_0000
    ensures k / 256 == a && k % 256 == b
  {
    a * 256 + b
  }

  /** The product fits 32 bits, so it does not wrap. */
  function Hash(k: nat): (h: nat)
    requires k < 0x1_0000
    ensures h < WR_SLOTS && k * 40503 < 0x1_0000_0000
  {
    k * 40503 / 64 % WR_SLOTS
  }

  /** The position d places after h, and how far p is after h, round the ring of slots. */
  function At(h: nat, d: nat): (p: nat)
    requires h < WR_SLOTS && d < WR_SLOTS
    ensures p < WR_SLOTS
  {
    if h + d < WR_SLOTS then h + d else h + d - WR_SLOTS
  }

  function Dist(h: nat, p: nat): (d: nat)
    requires h < WR_SLOTS && p < WR_SLOTS
    ensures d < WR_SLOTS && At(h, d) == p
  {
    if p >= h then p - h else p + WR_SLOTS - h
  }

  /** No empty slot among the first d probes from h. */
  ghost predicate Packed(slot: seq<nat>, h: nat, d: nat)
    requires |slot| == WR_SLOTS && h < WR_SLOTS && d <= WR_SLOTS
  {
    forall e :: 0 <= e < d ==> slot[At(h, e)] != 0
  }

  /** The hash holds exactly the pairs `keys`: the i-th, id 256 + i, at pos[i] and nowhere else, each
      reachable from its home slot without crossing an empty one. */
  ghost predicate Indexed(slot: seq<nat>, keys: seq<nat>, pos: seq<nat>) {
    && |slot| == WR_SLOTS && |pos| == |keys| <= FREE_IDS
    && (forall i :: 0 <= i < |keys| ==> keys[i] < 0x1_0000 && pos[i] < WR_SLOTS && slot[pos[i]] == WR_PURE_IDS + i + 1)
    && (forall p :: 0 <= p < WR_SLOTS && slot[p] != 0 ==>
          WR_PURE_IDS < slot[p] <= WR_PURE_IDS + |keys| && pos[slot[p] - WR_PURE_IDS - 1] == p)
    && (forall i :: 0 <= i < |keys| ==> Packed(slot, Hash(keys[i]), Dist(Hash(keys[i]), pos[i])))
    && (forall i, j :: 0 <= i < j < |keys| ==> keys[i] != keys[j])
  }

  function Elements(s: seq<nat>): (r: set<nat>)
    ensures |r| <= |s|
    ensures forall x :: x in s <==> x in r
  {
    if s == [] then {} else
      assert s == [s[0]] + s[1..];
      {s[0]} + Elements(s[1..])
  }

  function Below(n: nat): (r: set<nat>)
    ensures |r| == n
    ensures forall x: nat :: x in r <==> x < n
  {
    if n == 0 then {} else Below(n - 1) + {n - 1}
  }

  lemma {:induction false} SomeUnused(s: seq<nat>, n: nat) returns (x: nat)
    requires |s| < n
    ensures x < n && x !in s
  {
    if Below(n) <= Elements(s) {
      Subset(Below(n), Elements(s));
      assert false;
    }
    x :| x in Below(n) && x !in Elements(s);
  }

  lemma {:induction false} Subset(a: set<nat>, b: set<nat>)
    requires a <= b
    ensures |a| <= |b|
  {
    assert b == a + (b - a);
  }

  /** There is always an empty slot, so every probe ends. */
  lemma {:induction false} EmptySlot(slot: seq<nat>, keys: seq<nat>, pos: seq<nat>) returns (p: nat)
    requires Indexed(slot, keys, pos)
    ensures p < WR_SLOTS && slot[p] == 0
  {
    p := SomeUnused(pos, WR_SLOTS);
  }

  /** The key stored at slot p; out of range when p is empty. */
  ghost function KeyAt(slot: seq<nat>, keys: seq<nat>, p: nat): nat
    requires |slot| == WR_SLOTS && p < WR_SLOTS
  {
    if WR_PURE_IDS < slot[p] <= WR_PURE_IDS + |keys| then keys[slot[p] - WR_PURE_IDS - 1] else 0x1_0000
  }

  /** The first d probes for k met other keys. */
  ghost predicate Passed(slot: seq<nat>, keys: seq<nat>, home: nat, k: nat, d: nat)
    requires |slot| == WR_SLOTS && home < WR_SLOTS
  {
    d <= WR_SLOTS && Packed(slot, home, d) && forall e :: 0 <= e < d ==> KeyAt(slot, keys, At(home, e)) != k
  }

  lemma {:induction false} PassedStep(slot: seq<nat>, keys: seq<nat>, home: nat, k: nat, d: nat, hole: nat)
    requires |slot| == WR_SLOTS && home < WR_SLOTS && hole < WR_SLOTS && slot[hole] == 0
    requires Passed(slot, keys, home, k, d) && d <= Dist(home, hole)
    requires slot[At(home, d)] != 0 && KeyAt(slot, keys, At(home, d)) != k
    ensures d < Dist(home, hole) && Passed(slot, keys, home, k, d + 1)
    ensures At(home, d + 1) == if At(home, d) + 1 == WR_SLOTS then 0 else At(home, d) + 1
  {
    hide KeyAt;
  }

  /** A probe that ran into an empty slot without meeting the key proves that it is absent. */
  lemma {:induction false} Absent(slot: seq<nat>, keys: seq<nat>, pos: seq<nat>, k: nat, d: nat)
    requires Indexed(slot, keys, pos) && k < 0x1_0000 && d < WR_SLOTS
    requires slot[At(Hash(k), d)] == 0 && Passed(slot, keys, Hash(k), k, d)
    ensures k !in keys
  {
    hide Hash, At, Dist, Packed;
    forall i | 0 <= i < |keys| ensures keys[i] != k {
      Reached(slot, keys, pos, i, d);
      if keys[i] == k { assert false; }
    }
  }

  /** Probing for a key that is there meets it before any empty slot. */
  lemma {:induction false} Reached(slot: seq<nat>, keys: seq<nat>, pos: seq<nat>, i: nat, d: nat)
    requires Indexed(slot, keys, pos) && i < |keys| && d < WR_SLOTS
    ensures keys[i] < 0x1_0000
    ensures var h := Hash(keys[i]);
            slot[At(h, d)] == 0 ==> Dist(h, pos[i]) < d && slot[At(h, Dist(h, pos[i]))] == WR_PURE_IDS + i + 1
  {
    hide Hash, At;
    var h := Hash(keys[i]);
    var e := Dist(h, pos[i]);
    assert Packed(slot, h, e);
    assert slot[At(h, e)] == WR_PURE_IDS + i + 1;
  }

  /** Filling the empty slot the probe for a new key stopped at. */
  lemma {:induction false} Inserted(slot: seq<nat>, keys: seq<nat>, pos: seq<nat>, k: nat, d: nat)
    requires Indexed(slot, keys, pos) && k < 0x1_0000 && k !in keys && |keys| < FREE_IDS && d < WR_SLOTS
    requires slot[At(Hash(k), d)] == 0 && Packed(slot, Hash(k), d)
    ensures var p := At(Hash(k), d);
            Indexed(slot[p := WR_PURE_IDS + |keys| + 1], keys + [k], pos + [p])
  {
    hide Hash, At, Dist, Packed;
    var p := At(Hash(k), d);
    var slot', keys', pos' := slot[p := WR_PURE_IDS + |keys| + 1], keys + [k], pos + [p];
    DistAt(Hash(k), d);
    PackedMore(slot, p, WR_PURE_IDS + |keys| + 1);
    forall i | 0 <= i < |keys'| ensures Packed(slot', Hash(keys'[i]), Dist(Hash(keys'[i]), pos'[i])) {
      if i < |keys| { assert Packed(slot, Hash(keys[i]), Dist(Hash(keys[i]), pos[i])); }
    }
  }

  /** Filling a slot empties none. */
  lemma {:induction false} PackedMore(slot: seq<nat>, p: nat, v: nat)
    requires |slot| == WR_SLOTS && p < WR_SLOTS && v != 0
    ensures forall h: nat, d: nat :: h < WR_SLOTS && d <= WR_SLOTS && Packed(slot, h, d) ==> Packed(slot[p := v], h, d)
  {
    hide At;
  }

  lemma {:induction false} DistAt(h: nat, d: nat)
    requires h < WR_SLOTS && d < WR_SLOTS
    ensures Dist(h, At(h, d)) == d
  {
  }

  // ---- what an id means ----------------------------------------------------------------------

  /** First index of k in keys; the length when absent. */
  function Find(keys: seq<nat>, k: nat): (i: nat)
    ensures i <= |keys| && (i < |keys| ==> keys[i] == k)
    ensures forall j :: 0 <= j < i ==> keys[j] != k
  {
    if keys == [] || keys[0] == k then 0 else 1 + Find(keys[1..], k)
  }

  /** The id of a word: its colour's own when plain, the pair's when it has one, else its left pixel's. */
  function IdFor(keys: seq<nat>, a: Byte, b: Byte): Id {
    if a == b then a
    else if Find(keys, Key(a, b)) < |keys| && Find(keys, Key(a, b)) < FREE_IDS then WR_PURE_IDS + Find(keys, Key(a, b))
    else a
  }

  /** The pair has an id already, or never will. */
  ghost predicate Settled(keys: seq<nat>, a: Byte, b: Byte) {
    a == b || Key(a, b) in keys || |keys| == FREE_IDS
  }

  /** Pairs are only ever added at the end, up to the table's limit. */
  ghost predicate Grows(keys: seq<nat>, keys': seq<nat>) {
    keys <= keys' && |keys'| <= FREE_IDS
  }

  /** The id a pair is given is the id it keeps. */
  lemma {:induction false} IdStays(keys: seq<nat>, keys': seq<nat>, a: Byte, b: Byte)
    requires Grows(keys, keys') && Settled(keys, a, b)
    ensures IdFor(keys', a, b) == IdFor(keys, a, b) && Settled(keys', a, b)
  {
    var k := Key(a, b);
    if k in keys {
      var i := Find(keys, k);
      FindIn(keys, k);
      assert keys'[i] == k;
      FindIn(keys', k);
      assert forall j :: 0 <= j < i ==> keys'[j] == keys[j];
    }
    if |keys| == FREE_IDS { assert keys' == keys; }
  }

  lemma {:induction false} FindIn(keys: seq<nat>, k: nat)
    requires k in keys
    ensures Find(keys, k) < |keys|
  {
    var i :| 0 <= i < |keys| && keys[i] == k;
  }

  lemma {:induction false} NothingIndexed(slot: seq<nat>)
    requires |slot| == WR_SLOTS && forall p :: 0 <= p < WR_SLOTS ==> slot[p] == 0
    ensures Indexed(slot, [], [])
  {
  }

  lemma {:induction false} SlotHolds(slot: seq<nat>, keys: seq<nat>, pos: seq<nat>, p: nat)
    requires Indexed(slot, keys, pos) && p < WR_SLOTS && slot[p] != 0
    ensures WR_PURE_IDS < slot[p] <= WR_PURE_IDS + |keys| && KeyAt(slot, keys, p) == keys[slot[p] - WR_PURE_IDS - 1]
  {
  }
}
