/** The known networks (flash_store.c): a list of at most eight, most recently joined first, that is
    its own least-recently-used cache. */
module KnownNets {
  import opened Prelude

  const MAX_NETWORKS := 8
  const SSID_CAP := 33
  const PASS_CAP := 65

  /** A C string, without its terminator. */
  type Text = seq<Byte>

  datatype Net = Net(ssid: Text, pass: Text)

  const BLANK := Net([], [])

  /** copy_str: what fits before the terminator. */
  function Cut(s: Text): (t: Text)
    ensures t <= s && |t| == Min(|s|, PASS_CAP - 1)
  {
    if |s| < PASS_CAP then s else s[..PASS_CAP - 1]
  }

  // ---- the list as a value ----

  ghost predicate Distinct(l: seq<Net>) {
    forall i, j :: 0 <= i < j < |l| ==> l[i].ssid != l[j].ssid
  }

  ghost predicate ListOk(l: seq<Net>) {
    |l| <= MAX_NETWORKS && Distinct(l) && forall i :: 0 <= i < |l| ==> 0 < |l[i].ssid| < SSID_CAP && |l[i].pass| < PASS_CAP
  }

  /** Entry i removed. */
  ghost function Drop(l: seq<Net>, i: nat): (r: seq<Net>)
    requires i < |l|
  {
    l[..i] + l[i + 1..]
  }

  ghost predicate Known(l: seq<Net>, ssid: Text, i: nat) { i < |l| && l[i].ssid == ssid }

  /** The list after network `n`, at place i if it was known, is joined. */
  ghost function Added(l: seq<Net>, n: Net, known: Option<nat>): seq<Net>
    requires known.Some? ==> known.value < |l|
  {
    match known
    case Some(i) => [n] + Drop(l, i)
    case None => [n] + if |l| < MAX_NETWORKS then l else l[..MAX_NETWORKS - 1]
  }

  ghost function Names(l: seq<Net>): (r: seq<Text>)
    ensures |r| == |l|
  {
    seq(|l|, i requires 0 <= i < |l| => l[i].ssid)
  }

  // ---- recency ----

  /** s without the entries equal to x. */
  function Minus(s: seq<Text>, x: Text): (r: seq<Text>)
    ensures |r| <= |s| && x !in r && (x !in s ==> r == s)
    ensures forall y :: y in r ==> y in s
  {
    if s == [] then [] else if s[0] == x then Minus(s[1..], x) else [s[0]] + Minus(s[1..], x)
  }

  datatype Event = Joined(ssid: Text) | Forgotten(ssid: Text)

  /** Every network joined and not forgotten since, last joined first: a list without a limit. */
  function Recent(h: seq<Event>): seq<Text> {
    if h == [] then []
    else
      var e, r := h[|h| - 1], Recent(h[..|h| - 1]);
      if e.Joined? then [e.ssid] + Minus(r, e.ssid) else Minus(r, e.ssid)
  }

  function Limit(s: seq<Text>): seq<Text> { if |s| <= MAX_NETWORKS then s else s[..MAX_NETWORKS] }

  /** What the list of eight remembers after the same events. */
  function Remembered(h: seq<Event>): (r: seq<Text>)
    ensures |r| <= MAX_NETWORKS
  {
    if h == [] then [] else Next(Remembered(h[..|h| - 1]), h[|h| - 1])
  }

  function Next(s: seq<Text>, e: Event): (r: seq<Text>)
    ensures |s| <= MAX_NETWORKS ==> |r| <= MAX_NETWORKS
  {
    if e.Joined? then Limit([e.ssid] + Minus(s, e.ssid)) else Minus(s, e.ssid)
  }

  lemma {:induction false} MinusPrefix(s: seq<Text>, t: seq<Text>, x: Text)
    requires s <= t
    ensures Minus(s, x) <= Minus(t, x)
  {
    if s != [] { MinusPrefix(s[1..], t[1..], x); }
  }

  ghost predicate NoRepeats(s: seq<Text>) {
    forall i, j :: 0 <= i < j < |s| ==> s[i] != s[j]
  }

  /** Removing one entry of a list without repeats shortens it by one at most. */
  lemma {:induction false} MinusOne(s: seq<Text>, x: Text)
    requires NoRepeats(s)
    ensures |Minus(s, x)| >= |s| - 1 && NoRepeats(Minus(s, x))
  {
    if s != [] {
      if s[0] == x { assert x !in s[1..]; } else { MinusOne(s[1..], x); assert s[0] !in s[1..]; }
    }
  }

  lemma {:induction false} RecentDistinct(h: seq<Event>)
    ensures NoRepeats(Recent(h))
  {
    if h != [] {
      RecentDistinct(h[..|h| - 1]);
      MinusOne(Recent(h[..|h| - 1]), h[|h| - 1].ssid);
    }
  }

  /** After any history the eight-entry list is the front of the unlimited one: whatever has been
      pushed out was joined longer ago than everything still remembered. */
  lemma {:induction false} RemembersLatest(h: seq<Event>)
    ensures Remembered(h) <= Recent(h)
  {
    if h != [] {
      var g, x := h[..|h| - 1], h[|h| - 1].ssid;
      RemembersLatest(g);
      MinusPrefix(Remembered(g), Recent(g), x);
    }
  }

  /** Cutting a list to eight before or after a name is moved to its front comes to the same. */
  lemma {:induction false} LimitEarly(s: seq<Text>, x: Text)
    requires NoRepeats(s)
    ensures Limit([x] + Minus(Limit(s), x)) == Limit([x] + Minus(s, x))
  {
    hide Minus;
    if |s| > MAX_NETWORKS {
      LimitedNoRepeats(s);
      MinusPrefix(Limit(s), s, x);
      hide NoRepeats;
      MinusOne(Limit(s), x);
    }
  }

  /** While nothing is forgotten on request the list holds the last eight networks joined, all of
      them. */
  lemma {:induction false} RemembersEight(h: seq<Event>)
    requires forall e :: e in h ==> e.Joined?
    ensures Remembered(h) == Limit(Recent(h))
  {
    hide Minus, Limit;
    if h == [] {
      EmptyLimit();
    } else {
      var g, e := h[..|h| - 1], h[|h| - 1];
      RemembersEight(g);
      RecentDistinct(g);
      LimitEarly(Recent(g), e.ssid);
    }
  }

  lemma EmptyLimit()
    ensures Limit([]) == []
  {
  }

  lemma LimitedNoRepeats(s: seq<Text>)
    requires NoRepeats(s)
    ensures NoRepeats(Limit(s))
  {
  }

  // ---- the list operations as events ----

  lemma {:induction false} MinusAt(s: seq<Text>, i: nat)
    requires NoRepeats(s) && i < |s|
    ensures Minus(s, s[i]) == s[..i] + s[i + 1..]
  {
    if i == 0 {
      assert s[0] !in s[1..];
    } else {
      MinusAt(s[1..], i - 1);
      assert s[..i] == [s[0]] + s[1..][..i - 1] && s[1..][i - 1 + 1..] == s[i + 1..];
    }
  }

  lemma {:induction false} DropNames(l: seq<Net>, i: nat)
    requires Distinct(l) && i < |l|
    ensures Names(Drop(l, i)) == Minus(Names(l), l[i].ssid) && Distinct(Drop(l, i))
  {
    MinusAt(Names(l), i);
    assert Names(Drop(l, i)) == Names(l)[..i] + Names(l)[i + 1..];
  }

  lemma {:induction false} DropOk(l: seq<Net>, i: nat)
    requires ListOk(l) && i < |l|
    ensures ListOk(Drop(l, i)) && Names(Drop(l, i)) == Minus(Names(l), l[i].ssid)
    ensures forall n :: n in Drop(l, i) ==> n in l
  {
    hide Minus;
    DropNames(l, i);
  }

  lemma {:induction false} KnownNames(l: seq<Net>, n: Net, i: nat)
    requires ListOk(l) && 0 < |n.ssid| < SSID_CAP && |n.pass| < PASS_CAP && Known(l, n.ssid, i)
    ensures ListOk([n] + Drop(l, i)) && Names([n] + Drop(l, i)) == [n.ssid] + Minus(Names(l), n.ssid)
  {
    hide Minus;
    var d := Drop(l, i);
    DropNames(l, i);
    assert Names([n] + d) == [n.ssid] + Names(d);
    forall j | 0 <= j < |d| ensures d[j].ssid != n.ssid {
      assert Names(d)[j] in Names(d);
    }
  }

  lemma {:induction false} NewNames(l: seq<Net>, n: Net)
    requires ListOk(l) && 0 < |n.ssid| < SSID_CAP && |n.pass| < PASS_CAP && n.ssid !in Names(l)
    ensures ListOk(Added(l, n, None)) && Names(Added(l, n, None)) == Limit([n.ssid] + Names(l))
  {
    forall j | 0 <= j < |l| ensures l[j].ssid != n.ssid {
      assert Names(l)[j] in Names(l);
    }
  }

  /** Joining a network is one Joined event, whether it was known, new, or new to a full list. */
  lemma {:induction false} AddedNames(l: seq<Net>, n: Net, known: Option<nat>)
    requires ListOk(l) && 0 < |n.ssid| < SSID_CAP && |n.pass| < PASS_CAP
    requires if known.Some? then Known(l, n.ssid, known.value) else n.ssid !in Names(l)
    ensures ListOk(Added(l, n, known)) && Names(Added(l, n, known)) == Next(Names(l), Joined(n.ssid))
  {
    hide Names, ListOk, Minus, Drop;
    if known.Some? {
      KnownNames(l, n, known.value);
      assert |[n] + Drop(l, known.value)| <= MAX_NETWORKS by { AtMostEight([n] + Drop(l, known.value)); }
    } else {
      NewNames(l, n);
    }
  }

  lemma AtMostEight(l: seq<Net>)
    requires ListOk(l)
    ensures |l| <= MAX_NETWORKS
  {
  }

  class Networks {
    const nets: array<Net>
    var count: nat

    ghost predicate Valid()
      reads this, nets
    {
      && nets.Length == MAX_NETWORKS && count <= MAX_NETWORKS && ListOk(nets[..count])
      && forall i :: count <= i < MAX_NETWORKS ==> nets[i] == BLANK
    }

    ghost function List(): seq<Net>
      reads this, nets
      requires Valid()
    {
      nets[..count]
    }

    constructor ()
      ensures Valid() && fresh(nets) && List() == []
    {
      nets := new Net[MAX_NETWORKS](_ => BLANK);
      count := 0;
    }

    method Find(ssid: Text) returns (at: Option<nat>)
      requires Valid()
      ensures at.Some? ==> Known(List(), ssid, at.value)
      ensures at.None? ==> ssid == [] || ssid !in Names(List())
      ensures ssid == [] ==> at.None?
    {
      if |ssid| == 0 { return None; }
      for i := 0 to count
        invariant forall j :: 0 <= j < i ==> nets[j].ssid != ssid
      {
        if nets[i].ssid == ssid { return Some(i); }
      }
      return None;
    }

    /** The entries before `index` move back by one; the front is overwritten. */
    method Shift(index: nat, front: Net)
      requires nets.Length == MAX_NETWORKS && index < MAX_NETWORKS
      modifies nets
      ensures nets[..] == [front] + old(nets[..index]) + old(nets[index + 1..])
    {
      forall k | 0 < k <= index { nets[k] := nets[k - 1]; }
      nets[0] := front;
    }

    /** Entry `index`, now holding `n`, comes to the front. */
    method ToFront(index: nat, n: Net)
      requires Valid() && index < count && 0 < |n.ssid| < SSID_CAP && |n.pass| < PASS_CAP && n.ssid == nets[index].ssid
      modifies nets
      ensures Valid() && List() == Added(old(List()), n, Some(index))
      ensures Names(List()) == Next(old(Names(List())), Joined(n.ssid))
    {
      hide Added, Next, Names, ListOk;
      ghost var l, before := nets[..count], nets[..];
      AddedNames(l, n, Some(index));
      Shift(index, n);
      Shifted(before, nets[..], count, index, n);
    }

    /** The network just joined comes to the front; an index off the list changes nothing. */
    method Promote(index: int)
      requires Valid()
      modifies nets
      ensures Valid()
      ensures List() == if 0 < index < old(count) then Added(old(List()), old(nets[index]), Some(index)) else old(List())
      ensures 0 <= index < count ==> Names(List()) == Next(old(Names(List())), Joined(old(nets[index].ssid)))
    {
      hide Added, Next, Names, ListOk;
      if index <= 0 || index >= count {
        if index == 0 && count > 0 { AtFront(nets[..count]); }
        return;
      }
      EntryOk(nets[..count], index);
      ToFront(index, nets[index]);
    }

    /** Adds or refreshes a network: its password is the new one, cut to fit, and it is at the front;
        a full list loses its last entry. Refused for a name that is empty or does not fit. */
    method Add(ssid: Text, pass: Text) returns (ok: bool)
      requires Valid()
      modifies this`count, nets
      ensures Valid() && (ok <==> 0 < |ssid| < SSID_CAP)
      ensures !ok ==> List() == old(List())
      ensures ok ==> Names(List()) == Next(old(Names(List())), Joined(ssid)) && List() != [] && List()[0] == Net(ssid, Cut(pass))
      ensures ok ==> forall n :: n in List()[1..] ==> n in old(List())
    {
      hide Added, Next, Names, Cut, ListOk;
      if |ssid| == 0 || |ssid| >= SSID_CAP { return false; }
      var n := Net(ssid, Cut(pass));
      var at := Find(ssid);
      AddedFront(nets[..count], n, at);
      if at.Some? {
        ToFront(at.value, n);
      } else {
        Insert(n);
      }
      return true;
    }

    /** A network not yet known goes in front of the others. */
    method Insert(n: Net)
      requires Valid() && 0 < |n.ssid| < SSID_CAP && |n.pass| < PASS_CAP && n.ssid !in Names(List())
      modifies this`count, nets
      ensures Valid() && List() == Added(old(List()), n, None)
      ensures Names(List()) == Next(old(Names(List())), Joined(n.ssid))
    {
      hide Added, Next, Names, ListOk;
      ghost var l, before := nets[..count], nets[..];
      AddedNames(l, n, None);
      Shift(if count < MAX_NETWORKS then count else MAX_NETWORKS - 1, n);
      Inserted(before, nets[..], count, n);
      if count < MAX_NETWORKS { count := count + 1; }
    }

    static lemma Shifted(before: seq<Net>, after: seq<Net>, count: nat, index: nat, n: Net)
      requires |before| == MAX_NETWORKS && index < count <= MAX_NETWORKS
      requires after == [n] + before[..index] + before[index + 1..]
      ensures after[..count] == Added(before[..count], n, Some(index))
      ensures forall i :: count <= i < MAX_NETWORKS ==> after[i] == before[i]
    {
    }

    static lemma Inserted(before: seq<Net>, after: seq<Net>, count: nat, n: Net)
      requires |before| == MAX_NETWORKS && count <= MAX_NETWORKS
      requires var at := if count < MAX_NETWORKS then count else MAX_NETWORKS - 1; after == [n] + before[..at] + before[at + 1..]
      ensures var c := if count < MAX_NETWORKS then count + 1 else count;
              && after[..c] == Added(before[..count], n, None)
              && forall i :: c <= i < MAX_NETWORKS ==> after[i] == before[i]
    {
    }

    static lemma EntryOk(l: seq<Net>, i: nat)
      requires ListOk(l) && i < |l|
      ensures 0 < |l[i].ssid| < SSID_CAP && |l[i].pass| < PASS_CAP
    {
    }

    static lemma AddedFront(l: seq<Net>, n: Net, known: Option<nat>)
      requires known.Some? ==> known.value < |l|
      ensures var a := Added(l, n, known); a != [] && a[0] == n && forall m :: m in a[1..] ==> m in l
    {
    }

    static lemma AtFront(l: seq<Net>)
      requires ListOk(l) && l != []
      ensures Names(l) == Next(Names(l), Joined(l[0].ssid))
    {
      MinusAt(Names(l), 0);
    }

    /** Drops a network the user no longer wants; the others keep their order. */
    method Forget(ssid: Text) returns (ok: bool)
      requires Valid()
      modifies this`count, nets
      ensures Valid() && (ok <==> ssid in old(Names(List())))
      ensures Names(List()) == Next(old(Names(List())), Forgotten(ssid))
      ensures forall i :: 0 <= i < count ==> nets[i] in old(List())
    {
      hide Names, Minus, ListOk;
      var at := Find(ssid);
      ghost var l := nets[..count];
      if at.None? {
        EmptyUnknown(l);
        return false;
      }
      NamesAt(l, at.value);
      DropOk(l, at.value);
      forall k | at.value <= k < count - 1 { nets[k] := nets[k + 1]; }
      count := count - 1;
      nets[count] := BLANK;
      assert nets[..count] == Drop(l, at.value);
      return true;
    }

    static lemma EmptyUnknown(l: seq<Net>)
      requires ListOk(l)
      ensures [] !in Names(l)
    {
    }

    static lemma NamesAt(l: seq<Net>, i: nat)
      requires i < |l|
      ensures l[i].ssid in Names(l)
    {
      assert Names(l)[i] == l[i].ssid;
    }

    method ForgetAll()
      requires Valid()
      modifies this`count, nets
      ensures Valid() && List() == []
    {
      forall k | 0 <= k < MAX_NETWORKS { nets[k] := BLANK; }
      count := 0;
    }
  }
}
