/** The tokenizer accepts JSON and nothing else: whatever it has taken so far is the beginning of a
    written value, kept here piece by piece, and what it accepts is a whole one. */
module JsonLanguage {
  import opened Prelude
  import opened Json
  import opened JsonNumber
  import opened JsonText
  import opened JsonValue

  // ---- written values, with lone surrogates --------------------------------------------------

  /** As ChrOk, but any four hex digits will do: a surrogate without its partner is accepted, too. */
  predicate WideChr(c: Chr) {
    match c
    case Plain(_) => ChrOk(c)
    case Simple(_) => ChrOk(c)
    case Hex(d) => IsHex4(d)
    case HexPair(d, e) => ChrOk(c)
  }

  predicate WideChrs(cs: seq<Chr>) { forall i :: 0 <= i < |cs| ==> WideChr(cs[i]) }

  predicate WideDoc(d: Doc) {
    match d
    case Lit(_) => true
    case Num(t) => IsNumber(t) && |t| <= NUM_MAX
    case Str(cs) => WideChrs(cs)
    case List(gap, items) => Space(gap) && forall i :: 0 <= i < |items| ==> Space(items[i].w0) && WideDoc(items[i].v) && Space(items[i].w1)
    case Map(gap, members) =>
      Space(gap)
      && forall i :: 0 <= i < |members| ==>
           && Space(members[i].w0) && WideChrs(members[i].key) && Space(members[i].w1) && Space(members[i].w2)
           && WideDoc(members[i].v) && Space(members[i].w3)
  }

  // ---- a value begun -------------------------------------------------------------------------

  /** An open container while one of its values is being read: the elements before it, and what stands
      between them and it. */
  datatype Frame =
    | ListFrame(items: seq<Item>, w: seq<Byte>)
    | MapFrame(members: seq<Member>, w0: seq<Byte>, key: seq<Chr>, w1: seq<Byte>, w2: seq<Byte>)

  datatype Pos =
    | AtValue
    | InNumber(t: seq<Byte>)
    | InLiteral(l: Constant, m: nat)
    | InText(cs: seq<Chr>, part: seq<Byte>)
    | AtKey(members: seq<Member>, w: seq<Byte>)
    | InKey(members: seq<Member>, w: seq<Byte>, cs: seq<Chr>, part: seq<Byte>)
    | AtColon(members: seq<Member>, w0: seq<Byte>, key: seq<Chr>, w1: seq<Byte>)
    | AfterItem(items: seq<Item>)
    | AfterMember(members: seq<Member>)
    | Over(d: Doc, rest: seq<Byte>)

  datatype Partial = Partial(lead: seq<Byte>, frames: seq<Frame>, pos: Pos)

  function ListBody(items: seq<Item>): seq<Byte> { ['[' as int] + ItemsText(List([], items), |items|) }

  function MapBody(members: seq<Member>): seq<Byte> { ['{' as int] + MembersText(Map([], members), |members|) }

  function KeyPlace(members: seq<Member>, w: seq<Byte>): seq<Byte> { MapBody(members) + (Comma(|members|) + w) }

  function Open(cs: seq<Chr>, part: seq<Byte>): seq<Byte> { ['"' as int] + (ChrsText(cs) + part) }

  function FrameText(f: Frame): seq<Byte> {
    match f
    case ListFrame(items, w) => ListBody(items) + (Comma(|items|) + w)
    case MapFrame(members, w0, key, w1, w2) => KeyPlace(members, w0) + (Quoted(key) + (w1 + ([':' as int] + w2)))
  }

  function FramesText(fs: seq<Frame>): seq<Byte> {
    if fs == [] then [] else FramesText(fs[..|fs| - 1]) + FrameText(fs[|fs| - 1])
  }

  function PosText(p: Pos): seq<Byte> {
    match p
    case AtValue => []
    case InNumber(t) => t
    case InLiteral(w, m) => if m <= |LitText(w)| then LitText(w)[..m] else []
    case InText(cs, part) => Open(cs, part)
    case AtKey(members, w) => KeyPlace(members, w)
    case InKey(members, w, cs, part) => KeyPlace(members, w) + Open(cs, part)
    case AtColon(members, w0, key, w1) => KeyPlace(members, w0) + (Quoted(key) + w1)
    case AfterItem(items) => ListBody(items)
    case AfterMember(members) => MapBody(members)
    case Over(d, rest) => Text(d) + rest
  }

  /** The bytes taken so far. */
  function Seen(p: Partial): seq<Byte> { p.lead + FramesText(p.frames) + PosText(p.pos) }

  // ---- what has been taken is well written ---------------------------------------------------

  predicate ItemFine(it: Item, n: int) { Space(it.w0) && WideDoc(it.v) && Space(it.w1) && Shallow(it.v, n) }

  predicate MemberFine(m: Member, n: int) {
    Space(m.w0) && WideChrs(m.key) && Space(m.w1) && Space(m.w2) && WideDoc(m.v) && Space(m.w3) && Shallow(m.v, n)
  }

  predicate ItemsFine(items: seq<Item>, n: int) { forall i :: 0 <= i < |items| ==> ItemFine(items[i], n) }

  predicate MembersFine(members: seq<Member>, n: int) { forall i :: 0 <= i < |members| ==> MemberFine(members[i], n) }

  predicate FrameFine(f: Frame, n: int) {
    match f
    case ListFrame(items, w) => ItemsFine(items, n) && Space(w)
    case MapFrame(members, w0, key, w1, w2) => MembersFine(members, n) && Space(w0) && WideChrs(key) && Space(w1) && Space(w2)
  }

  predicate FramesFine(fs: seq<Frame>) { forall i :: 0 <= i < |fs| ==> FrameFine(fs[i], MAX_DEPTH - 1 - i) }

  /** The beginning of a character as written: nothing, a backslash, or an escape short of hex digits. */
  predicate PartFine(part: seq<Byte>) {
    part == [] || part == ['\\' as int]
    || (2 <= |part| < 6 && part[0] == '\\' as int && part[1] == 'u' as int
        && forall i :: 2 <= i < |part| ==> HexValue(part[i]).Some?)
  }

  predicate PosFine(p: Pos, n: nat) {
    match p
    case AtValue => true
    case InNumber(t) => true
    case InLiteral(w, m) => 1 <= m < |LitText(w)|
    case InText(cs, part) => WideChrs(cs) && PartFine(part)
    case AtKey(members, w) => MembersFine(members, MAX_DEPTH - 1 - n) && Space(w)
    case InKey(members, w, cs, part) => MembersFine(members, MAX_DEPTH - 1 - n) && Space(w) && WideChrs(cs) && PartFine(part)
    case AtColon(members, w0, key, w1) => MembersFine(members, MAX_DEPTH - 1 - n) && Space(w0) && WideChrs(key) && Space(w1)
    case AfterItem(items) => items != [] && ItemsFine(items, MAX_DEPTH - 1 - n)
    case AfterMember(members) => members != [] && MembersFine(members, MAX_DEPTH - 1 - n)
    case Over(d, rest) => n == 0 && WideDoc(d) && Shallow(d, MAX_DEPTH)
  }

  predicate Fine(p: Partial) { Space(p.lead) && FramesFine(p.frames) && PosFine(p.pos, |p.frames|) }

  // ---- where the tokenizer is ----------------------------------------------------------------

  function KindOf(f: Frame): Kind { if f.ListFrame? then Arr else Obj }

  function Kinds(fs: seq<Frame>): (ks: seq<Kind>)
    ensures |ks| == |fs|
  {
    seq(|fs|, i requires 0 <= i < |fs| => KindOf(fs[i]))
  }

  predicate PartAt(j: Js, part: seq<Byte>) {
    (part == [] && j.st.String?) || (part == ['\\' as int] && j.st.Escape?) || (j.st.UHex? && |part| == j.sub + 2)
  }

  predicate FirstLetter(w: Constant, c: nat) {
    c == match w case True => 't' as int case False => 'f' as int case Null => 'n' as int
  }

  /** The tokenizer's state after what p says has been taken. */
  ghost predicate Matches(j: Js, p: Partial) {
    && Ok(j) && !j.error && (j.complete <==> p.pos.Over?)
    && match p.pos
       case AtValue =>
         && j.stack == Kinds(p.frames)
         && (j.st.Value? || (j.st.ArrFirst? && p.frames != [] && var f := p.frames[|p.frames| - 1]; f.ListFrame? && f.items == []))
       case InNumber(t) => j.st.Number? && j.num == t && Collected(j) && j.stack == Kinds(p.frames)
       case InLiteral(w, m) => j.st.Literal? && FirstLetter(w, j.sub) && j.matched == m && j.stack == Kinds(p.frames)
       case InText(cs, part) => !j.inKey && PartAt(j, part) && j.stack == Kinds(p.frames)
       case AtKey(members, w) => (if members == [] then j.st.ObjFirst? else j.st.ObjKey?) && j.stack == Kinds(p.frames) + [Obj]
       case InKey(members, w, cs, part) => j.inKey && PartAt(j, part) && j.stack == Kinds(p.frames) + [Obj]
       case AtColon(members, w0, key, w1) => j.st.Colon? && j.stack == Kinds(p.frames) + [Obj]
       case AfterItem(items) => j.st.After? && j.stack == Kinds(p.frames) + [Arr]
       case AfterMember(members) => j.st.After? && j.stack == Kinds(p.frames) + [Obj]
       case Over(d, rest) => j.st.Done?
  }

  /** p with c taken, and the tokenizer there. */
  ghost predicate Took(j: Js, p: Partial, c: Byte, q: Partial) {
    Matches(j, q) && Fine(q) && Seen(q) == Seen(p) + [c]
  }

  // ---- a value is whole ----------------------------------------------------------------------

  function Closed(lead: seq<Byte>, fs: seq<Frame>, d: Doc): Partial {
    if fs == [] then Partial(lead, fs, Over(d, []))
    else
      var n := |fs| - 1;
      match fs[n]
      case ListFrame(items, w) => Partial(lead, fs[..n], AfterItem(items + [Item(w, d, [])]))
      case MapFrame(members, w0, key, w1, w2) => Partial(lead, fs[..n], AfterMember(members + [Member(w0, key, w1, w2, d, [])]))
  }

  lemma {:induction false} SameItems(items: seq<Item>, more: seq<Item>, k: nat)
    requires k <= |items|
    ensures ItemsText(List([], items + more), k) == ItemsText(List([], items), k)
    decreases k
  {
    hide Text;
    if k > 0 { SameItems(items, more, k - 1); }
  }

  lemma {:induction false} SameMembers(members: seq<Member>, more: seq<Member>, k: nat)
    requires k <= |members|
    ensures MembersText(Map([], members + more), k) == MembersText(Map([], members), k)
    decreases k
  {
    hide Text, Quoted;
    if k > 0 { SameMembers(members, more, k - 1); }
  }

  /** One element more behind a list's body. */
  lemma {:induction false} ListBodyMore(items: seq<Item>, it: Item)
    ensures ListBody(items + [it]) == ListBody(items) + (Comma(|items|) + (it.w0 + (Text(it.v) + it.w1)))
  {
    hide Text, Comma;
    SameItems(items, [it], |items|);
    assert (items + [it])[|items|] == it;
  }

  lemma {:induction false} MapBodyMore(members: seq<Member>, m: Member)
    ensures MapBody(members + [m])
            == MapBody(members)
               + (Comma(|members|) + (m.w0 + (Quoted(m.key) + (m.w1 + ([':' as int] + (m.w2 + (Text(m.v) + m.w3)))))))
  {
    hide Text, Comma, Quoted;
    SameMembers(members, [m], |members|);
    assert (members + [m])[|members|] == m;
  }

  lemma {:induction false} ClosedSeen(lead: seq<Byte>, fs: seq<Frame>, d: Doc)
    ensures Seen(Closed(lead, fs, d)) == lead + FramesText(fs) + Text(d)
  {
    if fs == [] {
    } else {
      match fs[|fs| - 1]
      case ListFrame(_, _) => ClosedInList(lead, fs, d);
      case MapFrame(_, _, _, _, _) => ClosedInMap(lead, fs, d);
    }
  }

  lemma {:induction false} ClosedInList(lead: seq<Byte>, fs: seq<Frame>, d: Doc)
    requires fs != [] && fs[|fs| - 1].ListFrame?
    ensures Seen(Closed(lead, fs, d)) == lead + FramesText(fs) + Text(d)
  {
    hide *;
    ListClosedIs(lead, fs, d);
    var n := |fs| - 1;
    var (a, f, t) := (lead + FramesText(fs[..n]), fs[n], Text(d));
    var b, w := ListBody(f.items), Comma(|f.items|) + f.w;
    ListBodyMore(f.items, Item(f.w, d, []));
    assert lead + FramesText(fs) == a + (b + w);
    assert Comma(|f.items|) + (f.w + (t + [])) == w + t;
    Four(a, b, w, t);
  }

  lemma {:induction false} ListClosedIs(lead: seq<Byte>, fs: seq<Frame>, d: Doc)
    requires fs != [] && fs[|fs| - 1].ListFrame?
    ensures var n := |fs| - 1;
            var f := fs[n];
            && Seen(Closed(lead, fs, d)) == lead + FramesText(fs[..n]) + ListBody(f.items + [Item(f.w, d, [])])
            && FramesText(fs) == FramesText(fs[..n]) + (ListBody(f.items) + (Comma(|f.items|) + f.w))
  {
    hide Text, ListBody, Comma;
  }

  lemma {:induction false} ClosedInMap(lead: seq<Byte>, fs: seq<Frame>, d: Doc)
    requires fs != [] && fs[|fs| - 1].MapFrame?
    ensures Seen(Closed(lead, fs, d)) == lead + FramesText(fs) + Text(d)
  {
    hide *;
    MapClosedIs(lead, fs, d);
    var n := |fs| - 1;
    var (a, f, t) := (lead + FramesText(fs[..n]), fs[n], Text(d));
    var (b, k, x) := (MapBody(f.members), Comma(|f.members|) + f.w0, Quoted(f.key) + (f.w1 + ([':' as int] + f.w2)));
    MapBodyMore(f.members, Member(f.w0, f.key, f.w1, f.w2, d, []));
    assert b + k + x == b + (k + x);
    assert lead + FramesText(fs) == a + (b + (k + x));
    assert t + [] == t;
    MemberJoin(Comma(|f.members|), f.w0, Quoted(f.key), f.w1, [':' as int], f.w2, t);
    Four(a, b, k + x, t);
  }

  lemma {:induction false} MapClosedIs(lead: seq<Byte>, fs: seq<Frame>, d: Doc)
    requires fs != [] && fs[|fs| - 1].MapFrame?
    ensures var n := |fs| - 1;
            var f := fs[n];
            && Seen(Closed(lead, fs, d)) == lead + FramesText(fs[..n]) + MapBody(f.members + [Member(f.w0, f.key, f.w1, f.w2, d, [])])
            && FramesText(fs) == FramesText(fs[..n])
                                 + (MapBody(f.members) + (Comma(|f.members|) + f.w0) + (Quoted(f.key) + (f.w1 + ([':' as int] + f.w2))))
  {
    hide Text, MapBody, Comma, Quoted;
  }

  lemma MemberJoin(k: seq<Byte>, w0: seq<Byte>, a: seq<Byte>, w1: seq<Byte>, c: seq<Byte>, w2: seq<Byte>, t: seq<Byte>)
    ensures k + (w0 + (a + (w1 + (c + (w2 + t))))) == (k + w0) + (a + (w1 + (c + w2))) + t
  {
    assert w1 + (c + (w2 + t)) == (w1 + (c + w2)) + t;
    Four([], a, w1 + (c + w2), t);
    Four(k, w0, a + (w1 + (c + w2)), t);
  }

  lemma Four(a: seq<Byte>, b: seq<Byte>, c: seq<Byte>, d: seq<Byte>)
    ensures a + (b + c) + d == a + (b + (c + d))
  {
  }

  lemma {:induction false} ClosedFine(lead: seq<Byte>, fs: seq<Frame>, d: Doc)
    requires Space(lead) && FramesFine(fs) && WideDoc(d) && Shallow(d, MAX_DEPTH - |fs|)
    ensures Fine(Closed(lead, fs, d))
  {
    hide WideDoc, Shallow, WideChrs;
    if fs != [] {
      var n := |fs| - 1;
      assert FrameFine(fs[n], MAX_DEPTH - 1 - n);
    }
  }

  lemma {:induction false} KindsCut(fs: seq<Frame>)
    requires fs != []
    ensures Kinds(fs) == Kinds(fs[..|fs| - 1]) + [KindOf(fs[|fs| - 1])]
  {
  }

  lemma {:induction false} ClosedMatches(k: Js, lead: seq<Byte>, fs: seq<Frame>, d: Doc)
    requires Ok(k) && !k.error && !k.complete && k.stack == Kinds(fs)
    ensures Matches(ValueDone(k), Closed(lead, fs, d))
  {
    if fs != [] { KindsCut(fs); }
  }

  /** A value read to its end. */
  lemma {:induction false} ValueCloses(k: Js, lead: seq<Byte>, fs: seq<Frame>, d: Doc)
    requires Ok(k) && !k.error && !k.complete && k.stack == Kinds(fs)
    requires Space(lead) && FramesFine(fs) && WideDoc(d) && Shallow(d, MAX_DEPTH - |fs|)
    ensures var q := Closed(lead, fs, d); Matches(ValueDone(k), q) && Fine(q) && Seen(q) == lead + FramesText(fs) + Text(d)
  {
    hide Closed, Matches, Fine, Seen, FramesText, Text, WideDoc, Shallow, FramesFine, ValueDone, Ok;
    ClosedSeen(lead, fs, d);
    ClosedFine(lead, fs, d);
    ClosedMatches(k, lead, fs, d);
  }

  // ---- whitespace ----------------------------------------------------------------------------

  function Spaced(p: Partial, c: Byte): Partial {
    match p.pos
    case AtValue =>
      if p.frames == [] then p.(lead := p.lead + [c])
      else
        var n := |p.frames| - 1;
        (match p.frames[n]
         case ListFrame(items, w) => p.(frames := p.frames[..n] + [ListFrame(items, w + [c])])
         case MapFrame(members, w0, key, w1, w2) => p.(frames := p.frames[..n] + [MapFrame(members, w0, key, w1, w2 + [c])]))
    case AtKey(members, w) => p.(pos := AtKey(members, w + [c]))
    case AtColon(members, w0, key, w1) => p.(pos := AtColon(members, w0, key, w1 + [c]))
    case AfterItem(items) =>
      if items == [] then p
      else
        var n := |items| - 1;
        p.(pos := AfterItem(items[..n] + [items[n].(w1 := items[n].w1 + [c])]))
    case AfterMember(members) =>
      if members == [] then p
      else
        var n := |members| - 1;
        p.(pos := AfterMember(members[..n] + [members[n].(w3 := members[n].w3 + [c])]))
    case _ => p
  }

  lemma {:induction false} SpacedItem(items: seq<Item>, c: Byte)
    requires items != []
    ensures var n := |items| - 1; ListBody(items[..n] + [items[n].(w1 := items[n].w1 + [c])]) == ListBody(items) + [c]
  {
    hide Text, ListBody, Comma;
    var n := |items| - 1;
    var (k, w, t, v) := (Comma(n), items[n].w0, Text(items[n].v), items[n].w1);
    assert items == items[..n] + [items[n]];
    ListBodyMore(items[..n], items[n]);
    ListBodyMore(items[..n], items[n].(w1 := v + [c]));
    assert k + (w + (t + (v + [c]))) == k + (w + (t + v)) + [c];
  }

  lemma {:induction false} SpacedMember(members: seq<Member>, c: Byte)
    requires members != []
    ensures var n := |members| - 1; MapBody(members[..n] + [members[n].(w3 := members[n].w3 + [c])]) == MapBody(members) + [c]
  {
    hide Text, MapBody, Comma, Quoted;
    var n := |members| - 1;
    var m := members[n];
    assert members == members[..n] + [m];
    MapBodyMore(members[..n], m);
    MapBodyMore(members[..n], m.(w3 := m.w3 + [c]));
    var (a, t) := (Quoted(m.key), Text(m.v));
    assert t + (m.w3 + [c]) == (t + m.w3) + [c];
    assert [':' as int] + (m.w2 + ((t + m.w3) + [c])) == [':' as int] + (m.w2 + (t + m.w3)) + [c];
    Trail(Comma(n), m.w0, a, m.w1, [':' as int] + (m.w2 + (t + m.w3)), [c]);
  }

  lemma Trail(k: seq<Byte>, w: seq<Byte>, a: seq<Byte>, v: seq<Byte>, x: seq<Byte>, c: seq<Byte>)
    ensures k + (w + (a + (v + (x + c)))) == k + (w + (a + (v + x))) + c
  {
    assert v + (x + c) == (v + x) + c;
    assert a + ((v + x) + c) == (a + (v + x)) + c;
  }

  lemma {:induction false} SpacedSeen(p: Partial, c: Byte)
    requires p.pos.AtValue? || p.pos.AtKey? || p.pos.AtColon? || (p.pos.AfterItem? && p.pos.items != []) || (p.pos.AfterMember? && p.pos.members != [])
    ensures Seen(Spaced(p, c)) == Seen(p) + [c]
  {
    if p.pos.AtValue? {
      SpacedFrame(p, c);
    } else {
      SpacedPos(p, c);
    }
  }

  lemma {:induction false} SpacedPos(p: Partial, c: Byte)
    requires p.pos.AtKey? || p.pos.AtColon? || (p.pos.AfterItem? && p.pos.items != []) || (p.pos.AfterMember? && p.pos.members != [])
    ensures Seen(Spaced(p, c)) == Seen(p) + [c]
  {
    hide Text, ListBody, MapBody, Comma, Quoted, FramesText;
    match p.pos
    case AfterItem(items) => SpacedItem(items, c);
    case AfterMember(members) => SpacedMember(members, c);
    case AtKey(members, w) => assert KeyPlace(members, w + [c]) == KeyPlace(members, w) + [c];
    case AtColon(members, w0, key, w1) => assert Quoted(key) + (w1 + [c]) == (Quoted(key) + w1) + [c];
  }

  lemma {:induction false} SpacedFrame(p: Partial, c: Byte)
    requires p.pos.AtValue?
    ensures Seen(Spaced(p, c)) == Seen(p) + [c]
  {
    hide FramesText, FrameText, Kinds;
    if p.frames != [] {
      var q := Spaced(p, c);
      FramesSpaced(p.frames, q.frames, c);
      hide Spaced;
      assert p.lead + (FramesText(p.frames) + [c]) == p.lead + FramesText(p.frames) + [c];
    } else {
      NoFrames();
    }
  }

  lemma NoFrames()
    ensures FramesText([]) == []
  {
  }

  lemma {:induction false} FramesSpaced(fs: seq<Frame>, gs: seq<Frame>, c: Byte)
    requires fs != [] && |gs| == |fs| && gs[..|fs| - 1] == fs[..|fs| - 1]
    requires match fs[|fs| - 1]
             case ListFrame(items, w) => gs[|fs| - 1] == ListFrame(items, w + [c])
             case MapFrame(members, w0, key, w1, w2) => gs[|fs| - 1] == MapFrame(members, w0, key, w1, w2 + [c])
    ensures FramesText(gs) == FramesText(fs) + [c]
  {
    hide *;
    FramesMore(fs);
    FramesMore(gs);
    FrameSpaced(fs[|fs| - 1], gs[|fs| - 1], c);
  }

  lemma FramesMore(fs: seq<Frame>)
    requires fs != []
    ensures FramesText(fs) == FramesText(fs[..|fs| - 1]) + FrameText(fs[|fs| - 1])
  {
  }

  lemma FrameSpaced(f: Frame, g: Frame, c: Byte)
    requires match f
             case ListFrame(items, w) => g == ListFrame(items, w + [c])
             case MapFrame(members, w0, key, w1, w2) => g == MapFrame(members, w0, key, w1, w2 + [c])
    ensures FrameText(g) == FrameText(f) + [c]
  {
    hide Text, ListBody, Comma, KeyPlace, Quoted;
    match f
    case ListFrame(items, w) => Four(ListBody(items), Comma(|items|), w, [c]);
    case MapFrame(members, w0, key, w1, w2) =>
      var x := w1 + ([':' as int] + w2);
      assert w1 + ([':' as int] + (w2 + [c])) == x + [c];
      Four(KeyPlace(members, w0), Quoted(key), x, [c]);
  }

  lemma {:induction false} SpacedFine(p: Partial, c: Byte)
    requires Fine(p) && IsSpace(c)
    ensures Fine(Spaced(p, c))
  {
    hide WideDoc, Shallow, WideChrs, PartFine;
  }

  lemma {:induction false} SpacedMatches(j: Js, p: Partial, c: Byte)
    requires Matches(j, p)
    ensures Matches(j, Spaced(p, c))
  {
    hide Ok, Collected;
    if p.pos.AtValue? && p.frames != [] {
      KindsCut(p.frames);
      KindsCut(Spaced(p, c).frames);
    }
  }

  lemma {:induction false} SpaceTaken(j: Js, p: Partial, c: Byte) returns (q: Partial)
    requires Matches(j, p) && Fine(p) && IsSpace(c)
    requires p.pos.AtValue? || p.pos.AtKey? || p.pos.AtColon? || p.pos.AfterItem? || p.pos.AfterMember?
    ensures Took(j, p, c, q)
  {
    SpacedPlace(p);
    hide Spaced, Seen, Matches, Fine, IsSpace;
    q := Spaced(p, c);
    SpacedSeen(p, c);
    SpacedFine(p, c);
    SpacedMatches(j, p, c);
  }

  lemma SpacedPlace(p: Partial)
    requires Fine(p)
    ensures (p.pos.AfterItem? ==> p.pos.items != []) && (p.pos.AfterMember? ==> p.pos.members != [])
  {
  }

  // ---- values begin --------------------------------------------------------------------------

  /** Whatever stands behind the frames is replaced by itself and one more byte. */
  lemma {:induction false} PosMore(p: Partial, q: Partial, c: Byte)
    requires q == p.(pos := q.pos) && PosText(q.pos) == PosText(p.pos) + [c]
    ensures Seen(q) == Seen(p) + [c]
  {
    hide FramesText, PosText;
    assert p.lead + FramesText(p.frames) + (PosText(p.pos) + [c]) == p.lead + FramesText(p.frames) + PosText(p.pos) + [c];
  }

  lemma PushIs(j: Js, kind: Kind)
    requires Ok(j) && !j.error && !Push(j, kind).error
    ensures var r := Push(j, kind);
            && Ok(r) && r.stack == j.stack + [kind] && r.st == (if kind.Obj? then ObjFirst else ArrFirst) && r.complete == j.complete
            && |j.stack| < MAX_DEPTH
  {
  }

  lemma {:induction false} MapBegins(j: Js, p: Partial) returns (q: Partial)
    requires Matches(j, p) && Fine(p) && p.pos.AtValue? && !Push(j, Obj).error
    ensures Took(Push(j, Obj), p, '{' as int, q)
  {
    hide Kinds, FramesText, FramesFine, Push, Seen;
    q := p.(pos := AtKey([], []));
    PushIs(j, Obj);
    assert KeyPlace([], []) == ['{' as int];
    PosMore(p, q, '{' as int);
  }

  lemma {:induction false} ListBegins(j: Js, p: Partial) returns (q: Partial)
    requires Matches(j, p) && Fine(p) && p.pos.AtValue? && !Push(j, Arr).error
    ensures Took(Push(j, Arr), p, '[' as int, q)
  {
    hide Kinds, FramesText, FrameText, FramesFine, Push, Seen, Ok;
    q := p.(frames := p.frames + [ListFrame([], [])]);
    MatchesOk(j, p);
    PushIs(j, Arr);
    FrameAdded(p, ListFrame([], []));
    ListOpens();
    SeenAtValue(p);
  }

  lemma SeenAtValue(p: Partial)
    requires p.pos.AtValue?
    ensures Seen(p) == p.lead + FramesText(p.frames) && p.pos == AtValue
  {
  }

  lemma ListOpens()
    ensures FrameText(ListFrame([], [])) == ['[' as int]
  {
  }

  /** One container more, and its value to come. */
  lemma {:induction false} FrameAdded(p: Partial, f: Frame)
    ensures var fs := p.frames + [f];
            && fs[|fs| - 1] == f && Kinds(fs) == Kinds(p.frames) + [KindOf(f)]
            && (FramesFine(p.frames) && FrameFine(f, MAX_DEPTH - 1 - |p.frames|) ==> FramesFine(fs))
            && Seen(p.(frames := fs, pos := AtValue)) == p.lead + FramesText(p.frames) + FrameText(f)
  {
    hide FrameText, FrameFine;
    var fs := p.frames + [f];
    assert fs[..|fs| - 1] == p.frames;
    KindsCut(fs);
    FramesMore(fs);
    hide FramesText, Kinds;
    assert p.lead + (FramesText(p.frames) + FrameText(f)) == p.lead + FramesText(p.frames) + FrameText(f);
  }

  lemma {:induction false} TextBegins(j: Js, p: Partial) returns (q: Partial)
    requires Matches(j, p) && Fine(p) && p.pos.AtValue?
    ensures Took(j.(inKey := false, st := String), p, '"' as int, q)
  {
    q := p.(pos := InText([], []));
    hide Kinds, FramesText, FramesFine;
    assert Open([], []) == ['"' as int];
    PosMore(p, q, '"' as int);
  }

  lemma {:induction false} LiteralBegins(j: Js, p: Partial, c: Byte) returns (q: Partial)
    requires Matches(j, p) && Fine(p) && p.pos.AtValue? && (c == 't' as int || c == 'f' as int || c == 'n' as int)
    ensures Took(j.(st := Literal, sub := c, matched := 1), p, c, q)
  {
    var w := if c == 't' as int then True else if c == 'f' as int then False else Null;
    q := p.(pos := InLiteral(w, 1));
    hide Kinds, FramesText, FramesFine;
    assert LitText(w)[..1] == [c];
    PosMore(p, q, c);
  }

  lemma {:induction false} NumberBegins(j: Js, p: Partial, c: Byte) returns (q: Partial)
    requires Matches(j, p) && Fine(p) && p.pos.AtValue? && (c == '-' as int || IsDigit(c))
    ensures Took(BeginValue(j, c), p, c, q)
  {
    q := p.(pos := InNumber([c]));
    NumberStarted(j, c);
    hide Kinds, FramesText, FramesFine, Collected;
    PosMore(p, q, c);
  }

  lemma NumberStarted(j: Js, c: Byte)
    requires Ok(j) && !j.error && (c == '-' as int || IsDigit(c))
    ensures Collected(BeginValue(j, c))
  {
    assert [c][1..] == [];
    assert WalkAll([c]) == Some(FirstSub(c).value);
  }

  lemma {:induction false} ValueBegins(j: Js, p: Partial, c: Byte) returns (q: Partial)
    requires Matches(j, p) && Fine(p) && p.pos.AtValue? && !BeginValue(j, c).error
    ensures Took(BeginValue(j, c), p, c, q)
  {
    hide Matches, Fine, Took, Push;
    MatchesOk(j, p);
    if c == '{' as int { q := MapBegins(j, p); }
    else if c == '[' as int { q := ListBegins(j, p); }
    else if c == '"' as int { q := TextBegins(j, p); }
    else if c == 't' as int || c == 'f' as int || c == 'n' as int { q := LiteralBegins(j, p, c); }
    else { q := NumberBegins(j, p, c); }
  }

  lemma MatchesOk(j: Js, p: Partial)
    requires Matches(j, p)
    ensures Ok(j) && !j.error
  {
  }

  // ---- between tokens ------------------------------------------------------------------------

  /** A bracket closes a container and with it a value. */
  lemma {:induction false} ContainerCloses(j: Js, p: Partial, kind: Kind, d: Doc, c: Byte) returns (q: Partial)
    requires Ok(j) && !j.error && !j.complete && j.stack == Kinds(p.frames) + [kind] && !Pop(j, kind).error
    requires Space(p.lead) && FramesFine(p.frames) && WideDoc(d) && Shallow(d, MAX_DEPTH - |p.frames|)
    requires Text(d) == PosText(p.pos) + [c]
    ensures Took(Pop(j, kind), p, c, q)
  {
    q := Closed(p.lead, p.frames, d);
    var k := Popped(j, kind, p.frames);
    hide *;
    ValueCloses(k, p.lead, p.frames, d);
    TookIs(ValueDone(k), p, c, q, d);
  }

  lemma TookIs(r: Js, p: Partial, c: Byte, q: Partial, d: Doc)
    requires Matches(r, q) && Fine(q) && Seen(q) == p.lead + FramesText(p.frames) + Text(d) && Text(d) == PosText(p.pos) + [c]
    ensures Took(r, p, c, q)
  {
    hide Matches, Fine, FramesText, PosText, Text;
    var (a, t) := (p.lead + FramesText(p.frames), PosText(p.pos));
    assert Seen(p) == a + t;
    assert a + (t + [c]) == (a + t) + [c];
  }

  lemma Popped(j: Js, kind: Kind, fs: seq<Frame>) returns (k: Js)
    requires Ok(j) && !j.error && !j.complete && j.stack == Kinds(fs) + [kind] && !Pop(j, kind).error
    ensures Ok(k) && !k.error && !k.complete && k.stack == Kinds(fs) && Pop(j, kind) == ValueDone(k)
  {
    var n := |j.stack|;
    var p := j.(stack := j.stack[..n - 1], index := j.index[..n - 1], key := j.key[..n - 1], st := Value);
    k := Emit(p, if kind.Obj? then ObjEnd else ArrEnd, [], true);
  }

  lemma {:induction false} EmptyTexts(gap: seq<Byte>)
    ensures Text(List(gap, [])) == (ListBody([]) + (Comma(0) + gap)) + [']' as int]
    ensures Text(Map(gap, [])) == KeyPlace([], gap) + ['}' as int]
  {
  }

  /** A list or map with elements, and one of none. */
  lemma {:induction false} FullTexts(items: seq<Item>, members: seq<Member>)
    ensures items != [] ==> Text(List([], items)) == ListBody(items) + [']' as int]
    ensures members != [] ==> Text(Map([], members)) == MapBody(members) + ['}' as int]
  {
    hide ItemsText, MembersText;
    var a, b := ItemsText(List([], items), |items|), MembersText(Map([], members), |members|);
    assert ['[' as int] + (a + [] + [']' as int]) == (['[' as int] + a) + [']' as int];
    assert ['{' as int] + (b + [] + ['}' as int]) == (['{' as int] + b) + ['}' as int];
  }

  lemma {:induction false} FullDocs(items: seq<Item>, members: seq<Member>, n: int)
    requires n > 0
    ensures ItemsFine(items, n - 1) ==> WideDoc(List([], items)) && Shallow(List([], items), n)
    ensures MembersFine(members, n - 1) ==> WideDoc(Map([], members)) && Shallow(Map([], members), n)
  {
    hide WideChrs;
  }

  lemma EmptyDocs(gap: seq<Byte>, n: int)
    requires n > 0 && Space(gap)
    ensures WideDoc(List(gap, [])) && Shallow(List(gap, []), n) && WideDoc(Map(gap, [])) && Shallow(Map(gap, []), n)
  {
  }

  /** ']' right after '['. */
  lemma {:induction false} EmptyListCloses(j: Js, p: Partial) returns (q: Partial)
    requires Matches(j, p) && Fine(p) && p.pos.AtValue? && j.st.ArrFirst? && !Pop(j, Arr).error
    ensures Took(Pop(j, Arr), p, ']' as int, q)
  {
    hide *;
    var fs, w := EmptyListFacts(j, p);
    q := Closed(p.lead, fs, List(w, []));
    var k := Popped(j, Arr, fs);
    ValueCloses(k, p.lead, fs, List(w, []));
    var (a, t, b) := (p.lead, FramesText(fs), FrameText(ListFrame([], w)));
    assert a + t + (b + [']' as int]) == a + (t + b) + [']' as int];
    TookFrom(ValueDone(k), p, ']' as int, q);
  }

  lemma {:induction false} EmptyListFacts(j: Js, p: Partial) returns (fs: seq<Frame>, w: seq<Byte>)
    requires Matches(j, p) && Fine(p) && p.pos.AtValue? && j.st.ArrFirst?
    ensures Ok(j) && !j.error && !j.complete && j.stack == Kinds(fs) + [Arr]
    ensures Space(p.lead) && FramesFine(fs) && WideDoc(List(w, [])) && Shallow(List(w, []), MAX_DEPTH - |fs|)
    ensures Seen(p) == p.lead + (FramesText(fs) + FrameText(ListFrame([], w)))
    ensures Text(List(w, [])) == FrameText(ListFrame([], w)) + [']' as int]
  {
    hide *;
    LastIsList(j, p);
    var n := |p.frames| - 1;
    fs := p.frames[..n];
    w := p.frames[n].w;
    KindsCut(p.frames);
    FramesMore(p.frames);
    SeenAtValue(p);
    EmptyTexts(w);
    EmptyDocs(w, MAX_DEPTH - n);
    EmptyFrame(w);
  }

  lemma EmptyFrame(w: seq<Byte>)
    ensures FrameText(ListFrame([], w)) == ListBody([]) + (Comma(0) + w)
  {
  }

  lemma LastIsList(j: Js, p: Partial)
    requires Matches(j, p) && Fine(p) && p.pos.AtValue? && j.st.ArrFirst?
    ensures Ok(j) && !j.error && !j.complete && j.stack == Kinds(p.frames) && Space(p.lead)
    ensures 0 < |p.frames| <= MAX_DEPTH
    ensures var n := |p.frames| - 1;
            var f := p.frames[n];
            f == ListFrame([], f.w) && KindOf(f) == Arr && Space(f.w) && FramesFine(p.frames[..n])
  {
    hide Kinds, Space;
    assert FrameFine(p.frames[|p.frames| - 1], MAX_DEPTH - |p.frames|);
  }

  lemma TookFrom(r: Js, p: Partial, c: Byte, q: Partial)
    requires Matches(r, q) && Fine(q) && Seen(q) == Seen(p) + [c]
    ensures Took(r, p, c, q)
  {
    hide Matches, Fine, Seen;
  }

  lemma {:induction false} ListCloses(j: Js, p: Partial) returns (q: Partial)
    requires Matches(j, p) && Fine(p) && p.pos.AfterItem? && !Pop(j, Arr).error
    ensures Took(Pop(j, Arr), p, ']' as int, q)
  {
    AfterDepth(j, p);
    hide Kinds, FramesFine, WideDoc, Shallow, Text, Pop, ItemsFine, ListBody, Took;
    FullTexts(p.pos.items, []);
    FullDocs(p.pos.items, [], MAX_DEPTH - |p.frames|);
    q := ContainerCloses(j, p, Arr, List([], p.pos.items), ']' as int);
  }

  lemma {:induction false} MapCloses(j: Js, p: Partial) returns (q: Partial)
    requires Matches(j, p) && Fine(p) && p.pos.AfterMember? && !Pop(j, Obj).error
    ensures Took(Pop(j, Obj), p, '}' as int, q)
  {
    AfterDepth(j, p);
    hide Kinds, FramesFine, WideDoc, Shallow, Text, Pop, MembersFine, MapBody, Took;
    FullTexts([], p.pos.members);
    FullDocs([], p.pos.members, MAX_DEPTH - |p.frames|);
    q := ContainerCloses(j, p, Obj, Map([], p.pos.members), '}' as int);
  }

  lemma {:induction false} EmptyMapCloses(j: Js, p: Partial) returns (q: Partial)
    requires Matches(j, p) && Fine(p) && p.pos.AtKey? && p.pos.members == [] && !Pop(j, Obj).error
    ensures Took(Pop(j, Obj), p, '}' as int, q)
  {
    AfterDepth(j, p);
    hide Kinds, FramesFine, WideDoc, Shallow, Text, Pop, MembersFine, KeyPlace, Took;
    EmptyTexts(p.pos.w);
    EmptyDocs(p.pos.w, MAX_DEPTH - |p.frames|);
    q := ContainerCloses(j, p, Obj, Map(p.pos.w, []), '}' as int);
  }

  lemma AfterDepth(j: Js, p: Partial)
    requires Matches(j, p) && (p.pos.AfterItem? || p.pos.AfterMember? || p.pos.AtKey?)
    ensures |p.frames| < MAX_DEPTH
  {
    hide Kinds;
  }

  /** A comma. */
  lemma {:induction false} CommaTaken(j: Js, p: Partial) returns (q: Partial)
    requires Matches(j, p) && Fine(p) && (p.pos.AfterItem? || p.pos.AfterMember?)
    ensures Took(Boundary(j, ',' as int), p, ',' as int, q)
  {
    hide Took, Boundary, Matches, Fine, Seen;
    if p.pos.AfterItem? { q := ItemComma(j, p); } else { q := MemberComma(j, p); }
  }

  lemma CommaState(j: Js)
    requires Ok(j) && !j.error && j.st.After?
    ensures var r := Boundary(j, ',' as int);
            && Ok(r) && !r.error && r.stack == j.stack && r.complete == j.complete
            && r.st == if j.stack[|j.stack| - 1].Obj? then ObjKey else Value
  {
  }

  lemma {:induction false} ItemComma(j: Js, p: Partial) returns (q: Partial)
    requires Matches(j, p) && Fine(p) && p.pos.AfterItem?
    ensures Took(Boundary(j, ',' as int), p, ',' as int, q)
  {
    hide Kinds, FramesText, ListBody, FramesFine, ItemsFine, FrameText, Boundary, Seen, Ok;
    var f := ListFrame(p.pos.items, []);
    q := Partial(p.lead, p.frames + [f], AtValue);
    MatchesOk(j, p);
    CommaState(j);
    FrameAdded(p, f);
    ItemCommaText(p);
  }

  lemma ItemCommaText(p: Partial)
    requires p.pos.AfterItem? && p.pos.items != []
    ensures p.lead + FramesText(p.frames) + FrameText(ListFrame(p.pos.items, [])) == Seen(p) + [',' as int]
  {
    hide FramesText, ListBody;
    var (a, b) := (p.lead + FramesText(p.frames), ListBody(p.pos.items));
    assert FrameText(ListFrame(p.pos.items, [])) == b + [',' as int];
    assert a + (b + [',' as int]) == a + b + [',' as int];
  }

  lemma {:induction false} MemberComma(j: Js, p: Partial) returns (q: Partial)
    requires Matches(j, p) && Fine(p) && p.pos.AfterMember?
    ensures Took(Boundary(j, ',' as int), p, ',' as int, q)
  {
    hide Kinds, FramesText, MapBody, FramesFine, MembersFine, KeyPlace, Boundary, Seen, Ok;
    q := p.(pos := AtKey(p.pos.members, []));
    MatchesOk(j, p);
    CommaState(j);
    KeyPlaceComma(p.pos.members);
    PosMore(p, q, ',' as int);
  }

  lemma KeyPlaceComma(members: seq<Member>)
    requires members != []
    ensures KeyPlace(members, []) == MapBody(members) + [',' as int]
  {
    hide MapBody;
  }

  // ---- keys ----------------------------------------------------------------------------------

  lemma {:induction false} KeyBegins(j: Js, p: Partial) returns (q: Partial)
    requires Matches(j, p) && Fine(p) && p.pos.AtKey?
    ensures Took(BeginKey(j), p, '"' as int, q)
  {
    hide Kinds, FramesText, FramesFine, MembersFine, KeyPlace, Seen;
    var (ms, w) := (p.pos.members, p.pos.w);
    q := p.(pos := InKey(ms, w, [], []));
    assert Open([], []) == ['"' as int];
    PosMore(p, q, '"' as int);
  }

  lemma {:induction false} ColonTaken(j: Js, p: Partial) returns (q: Partial)
    requires Matches(j, p) && Fine(p) && p.pos.AtColon?
    ensures Took(j.(st := Value), p, ':' as int, q)
  {
    hide Kinds, FramesText, FrameText, FramesFine, MembersFine, KeyPlace, Seen;
    var f := MapFrame(p.pos.members, p.pos.w0, p.pos.key, p.pos.w1, []);
    q := Partial(p.lead, p.frames + [f], AtValue);
    FrameAdded(p, f);
    ColonText(p);
  }

  lemma ColonText(p: Partial)
    requires p.pos.AtColon?
    ensures p.lead + FramesText(p.frames) + FrameText(MapFrame(p.pos.members, p.pos.w0, p.pos.key, p.pos.w1, [])) == Seen(p) + [':' as int]
  {
    hide FramesText, KeyPlace, Quoted;
    var (a, k, t, w) := (p.lead + FramesText(p.frames), KeyPlace(p.pos.members, p.pos.w0), Quoted(p.pos.key), p.pos.w1);
    assert t + (w + ([':' as int] + [])) == (t + w) + [':' as int];
    assert a + (k + ((t + w) + [':' as int])) == a + (k + (t + w)) + [':' as int];
  }

  // ---- all of Boundary -----------------------------------------------------------------------

  /** The places between tokens. */
  predicate Between(p: Pos) { p.AtValue? || p.AtKey? || p.AtColon? || p.AfterItem? || p.AfterMember? }

  lemma {:induction false} BoundaryTaken(j: Js, p: Partial, c: Byte) returns (q: Partial)
    requires Matches(j, p) && Fine(p) && Between(p.pos) && !Boundary(j, c).error
    ensures Took(Boundary(j, c), p, c, q)
  {
    hide Fine, Took, Seen, Pop, BeginValue, BeginKey, Kinds, Ok, Collected;
    MatchesOk(j, p);
    if IsSpace(c) { q := SpaceTaken(j, p, c); return; }
    match p.pos
    case AtValue =>
      if j.st.ArrFirst? && c == ']' as int { q := EmptyListCloses(j, p); } else { q := ValueBegins(j, p, c); }
    case AtKey(members, _) =>
      if c == '"' as int { q := KeyBegins(j, p); } else { q := EmptyMapCloses(j, p); }
    case AtColon(_, _, _, _) => q := ColonTaken(j, p);
    case _ => q := AfterTaken(j, p, c);
  }

  lemma {:induction false} AfterTaken(j: Js, p: Partial, c: Byte) returns (q: Partial)
    requires Matches(j, p) && Fine(p) && (p.pos.AfterItem? || p.pos.AfterMember?) && !IsSpace(c) && !Boundary(j, c).error
    ensures Took(Boundary(j, c), p, c, q)
  {
    hide Fine, Took, Seen, BeginValue, BeginKey, Kinds, Ok, Collected;
    MatchesOk(j, p);
    if c == ',' as int {
      q := CommaTaken(j, p);
    } else if p.pos.AfterItem? {
      q := ListCloses(j, p);
    } else {
      q := MapCloses(j, p);
    }
  }

  // ---- strings -------------------------------------------------------------------------------

  /** What a byte inside a string leaves alone. */
  predicate Kept(j: Js, r: Js) { r.stack == j.stack && r.complete == j.complete && r.inKey == j.inKey && r.error == j.error }

  lemma EmitKeeps(j: Js, b: seq<Byte>)
    requires Ok(j)
    ensures var r := EmitBytes(j, b); Kept(j, r) && r.st == j.st && r.sub == j.sub
  {
  }

  lemma FlushKeeps(j: Js)
    requires Ok(j)
    ensures var r := FlushPending(j); Kept(j, r) && r.st == j.st && r.sub == j.sub
  {
    hide EmitBytes, Utf8;
    if j.pending != 0 { EmitKeeps(j.(pending := 0), Utf8(0xFFFD)); }
  }

  lemma UescapeKeeps(j: Js)
    requires Ok(j)
    ensures Kept(j, EndUescape(j))
  {
    hide EmitBytes, Utf8, FlushPending, Pair;
    FlushKeeps(j);
    var f, cp := FlushPending(j), j.uescape;
    if j.pending != 0 && Low(cp) { EmitKeeps(j.(pending := 0), Utf8(Pair(j.pending, cp))); }
    else if !High(cp) { EmitKeeps(f, Utf8(if Low(cp) then 0xFFFD else cp)); }
  }

  lemma {:induction false} ChrsMore(cs: seq<Chr>, c: Chr)
    ensures ChrsText(cs + [c]) == ChrsText(cs) + ChrText(c)
  {
    hide ChrText;
    if cs == [] {
      assert (cs + [c])[1..] == [];
    } else {
      assert (cs + [c])[1..] == cs[1..] + [c];
      ChrsMore(cs[1..], c);
    }
  }

  /** A character is whole. */
  lemma {:induction false} ChrWhole(cs: seq<Chr>, part: seq<Byte>, c: Byte, x: Chr)
    requires WideChrs(cs) && WideChr(x) && ChrText(x) == part + [c]
    ensures WideChrs(cs + [x]) && Open(cs + [x], []) == Open(cs, part) + [c]
  {
    hide ChrText, WideChr;
    ChrsMore(cs, x);
  }

  lemma {:induction false} PartMore(cs: seq<Chr>, part: seq<Byte>, c: Byte)
    ensures Open(cs, part + [c]) == Open(cs, part) + [c]
  {
    hide ChrsText;
  }

  /** The string with one more byte. */
  ghost predicate Grew(j: Js, c: Byte, cs: seq<Chr>, part: seq<Byte>, cs': seq<Chr>, part': seq<Byte>) {
    && Ok(j) && Kept(j, Step(j, c)) && PartAt(Step(j, c), part') && WideChrs(cs') && PartFine(part')
    && Open(cs', part') == Open(cs, part) + [c]
  }

  lemma {:induction false} PlainGrows(j: Js, c: Byte, cs: seq<Chr>) returns (cs': seq<Chr>, part': seq<Byte>)
    requires Ok(j) && !j.error && PartAt(j, []) && WideChrs(cs) && c != '"' as int && !Step(j, c).error
    ensures Grew(j, c, cs, [], cs', part')
  {
    hide EmitBytes, FlushPending, Open, WideChrs;
    FlushKeeps(j);
    var f := FlushPending(j);
    if c == '\\' as int {
      cs', part' := cs, ['\\' as int];
      PartMore(cs, [], c);
      assert [] + [c] == ['\\' as int];
    } else {
      EmitKeeps(f, [c]);
      cs', part' := cs + [Plain(c)], [];
      ChrWhole(cs, [], c, Plain(c));
    }
  }

  lemma {:induction false} EscapeGrows(j: Js, c: Byte, cs: seq<Chr>) returns (cs': seq<Chr>, part': seq<Byte>)
    requires Ok(j) && !j.error && PartAt(j, ['\\' as int]) && WideChrs(cs) && !Step(j, c).error
    ensures Grew(j, c, cs, ['\\' as int], cs', part')
  {
    hide EmitBytes, FlushPending, Open, WideChrs;
    if c == 'u' as int {
      cs', part' := cs, ['\\' as int, 'u' as int];
      PartMore(cs, ['\\' as int], c);
      assert ['\\' as int] + [c] == part';
    } else {
      FlushKeeps(j);
      EmitKeeps(FlushPending(j), [Unescaped(c).value]);
      var i := SimpleOf(c);
      cs', part' := cs + [Simple(i)], [];
      ChrWhole(cs, ['\\' as int], c, Simple(i));
    }
  }

  lemma SimpleOf(c: Byte) returns (i: nat)
    requires Unescaped(c).Some?
    ensures i < 8 && ChrText(Simple(i)) == ['\\' as int] + [c]
  {
    i := if c == '"' as int then 0 else if c == '\\' as int then 1 else if c == '/' as int then 2 else if c == 'b' as int then 3
         else if c == 'f' as int then 4 else if c == 'n' as int then 5 else if c == 'r' as int then 6 else 7;
    assert ESCAPES == "\"\\/bfnrt";
  }

  lemma {:induction false} HexGrows(j: Js, c: Byte, cs: seq<Chr>, part: seq<Byte>) returns (cs': seq<Chr>, part': seq<Byte>)
    requires Ok(j) && !j.error && j.st.UHex? && PartAt(j, part) && PartFine(part) && WideChrs(cs) && !Step(j, c).error
    ensures Grew(j, c, cs, part, cs', part')
  {
    hide EmitBytes, FlushPending, Open, WideChrs, EndUescape;
    var h := j.(uescape := (j.uescape * 16 + HexValue(c).value) % 0x1_0000, sub := (j.sub + 1) % 256);
    if |part| == 5 {
      UescapeKeeps(h);
      var d := part[2..] + [c];
      cs', part' := cs + [Hex(d)], [];
      assert UEscape(d) == part + [c];
      ChrWhole(cs, part, c, Hex(d));
    } else {
      cs', part' := cs, part + [c];
      PartMore(cs, part, c);
    }
  }

  lemma {:induction false} StringGrows(j: Js, c: Byte, cs: seq<Chr>, part: seq<Byte>) returns (cs': seq<Chr>, part': seq<Byte>)
    requires Ok(j) && !j.error && PartAt(j, part) && PartFine(part) && WideChrs(cs) && !Step(j, c).error
    requires part == [] ==> c != '"' as int
    ensures Grew(j, c, cs, part, cs', part')
  {
    hide Grew, Step, WideChrs, Ok;
    if part == [] { cs', part' := PlainGrows(j, c, cs); }
    else if j.st.Escape? { cs', part' := EscapeGrows(j, c, cs); }
    else { cs', part' := HexGrows(j, c, cs, part); }
  }

  // ---- inside tokens -------------------------------------------------------------------------

  lemma {:induction false} TextGrows(j: Js, p: Partial, c: Byte) returns (q: Partial)
    requires Matches(j, p) && Fine(p) && p.pos.InText? && (p.pos.part == [] ==> c != '"' as int) && !Step(j, c).error
    ensures Took(Step(j, c), p, c, q)
  {
    hide Step, Kinds, FramesText, FramesFine, WideChrs, PartFine, Open, Seen;
    var cs, part := StringGrows(j, c, p.pos.cs, p.pos.part);
    q := p.(pos := InText(cs, part));
    PosMore(p, q, c);
  }

  lemma {:induction false} KeyGrows(j: Js, p: Partial, c: Byte) returns (q: Partial)
    requires Matches(j, p) && Fine(p) && p.pos.InKey? && (p.pos.part == [] ==> c != '"' as int) && !Step(j, c).error
    ensures Took(Step(j, c), p, c, q)
  {
    hide Step, Kinds, FramesText, FramesFine, WideChrs, PartFine, Open, Seen, KeyPlace, MembersFine;
    var cs, part := StringGrows(j, c, p.pos.cs, p.pos.part);
    q := p.(pos := InKey(p.pos.members, p.pos.w, cs, part));
    var (k, t) := (KeyPlace(p.pos.members, p.pos.w), Open(p.pos.cs, p.pos.part));
    assert k + (t + [c]) == k + t + [c];
    PosMore(p, q, c);
  }

  lemma QuoteStep(j: Js) returns (k: Js)
    requires Ok(j) && !j.error && j.st.String?
    ensures Ok(k) && Kept(j, k) && Step(j, '"' as int) == (if j.inKey then Step(j, '"' as int) else ValueDone(k))
    ensures j.inKey ==> var r := Step(j, '"' as int); Ok(r) && r.st.Colon? && r.stack == j.stack && r.complete == j.complete && !r.error
  {
    hide FlushPending;
    FlushKeeps(j);
    k := if j.inKey then j else Emit(FlushPending(j), StringEv, [], true);
  }

  lemma QuotedIs(cs: seq<Chr>)
    ensures Open(cs, []) + ['"' as int] == Quoted(cs)
  {
    hide ChrsText;
  }

  lemma {:induction false} TextEnds(j: Js, p: Partial) returns (q: Partial)
    requires Matches(j, p) && Fine(p) && p.pos.InText? && p.pos.part == []
    ensures Took(Step(j, '"' as int), p, '"' as int, q)
  {
    hide Step, Kinds, FramesText, FramesFine, WideChrs, PartFine, Open, Seen, Took, Closed, Quoted;
    var k := QuoteStep(j);
    QuotedIs(p.pos.cs);
    var d := Str(p.pos.cs);
    q := Closed(p.lead, p.frames, d);
    ValueCloses(k, p.lead, p.frames, d);
    TookIs(ValueDone(k), p, '"' as int, q, d);
  }

  lemma {:induction false} KeyEnds(j: Js, p: Partial) returns (q: Partial)
    requires Matches(j, p) && Fine(p) && p.pos.InKey? && p.pos.part == []
    ensures Took(Step(j, '"' as int), p, '"' as int, q)
  {
    hide Step, Kinds, FramesText, FramesFine, WideChrs, PartFine, Open, Seen, KeyPlace, MembersFine, Quoted;
    var k := QuoteStep(j);
    QuotedIs(p.pos.cs);
    q := p.(pos := AtColon(p.pos.members, p.pos.w, p.pos.cs, []));
    var (a, t) := (KeyPlace(p.pos.members, p.pos.w), Open(p.pos.cs, []));
    assert a + (t + ['"' as int]) == a + t + ['"' as int];
    assert Quoted(p.pos.cs) + [] == Quoted(p.pos.cs);
    PosMore(p, q, '"' as int);
  }

  lemma {:induction false} LiteralGrows(j: Js, p: Partial, c: Byte) returns (q: Partial)
    requires Matches(j, p) && Fine(p) && p.pos.InLiteral? && !Step(j, c).error
    ensures Took(Step(j, c), p, c, q)
  {
    hide Kinds, FramesText, FramesFine, Seen, Took, Closed, Step;
    var (w, m) := (p.pos.l, p.pos.m);
    var k := LiteralStep(j, c, w);
    if m + 1 == |LitText(w)| {
      q := Closed(p.lead, p.frames, Lit(w));
      ValueCloses(k, p.lead, p.frames, Lit(w));
      TookIs(ValueDone(k), p, c, q, Lit(w));
    } else {
      q := p.(pos := InLiteral(w, m + 1));
      PosMore(p, q, c);
      TookFrom(Step(j, c), p, c, q);
    }
  }

  lemma LiteralStep(j: Js, c: Byte, w: Constant) returns (k: Js)
    requires Ok(j) && !j.error && j.st.Literal? && FirstLetter(w, j.sub) && !Step(j, c).error
    ensures 1 <= j.matched < |LitText(w)| && LitText(w)[..j.matched + 1] == LitText(w)[..j.matched] + [c]
    ensures Ok(k) && !k.error && k.stack == j.stack && k.complete == j.complete
    ensures if j.matched + 1 == |LitText(w)| then Step(j, c) == ValueDone(k) && LitText(w) == LitText(w)[..j.matched] + [c]
            else var r := Step(j, c); Ok(r) && !r.error && r.st.Literal? && r.sub == j.sub && r.matched == j.matched + 1 && r.stack == j.stack && r.complete == j.complete
  {
    LettersAre(w, j.sub);
    var m := j.(matched := j.matched + 1);
    k := Emit(m, if j.sub == 't' as int then TrueEv else if j.sub == 'f' as int then FalseEv else NullEv, [], true).(st := Value);
    hide Letters, LitText;
    assert LitText(w)[j.matched] == c;
  }

  lemma LettersAre(w: Constant, sub: nat)
    requires FirstLetter(w, sub)
    ensures |Letters(sub)| == |LitText(w)| && forall i :: 0 <= i < |LitText(w)| ==> LitText(w)[i] == Letters(sub)[i] as int
  {
  }

  lemma {:induction false} NumberGrows(j: Js, p: Partial, c: Byte) returns (q: Partial)
    requires Matches(j, p) && Fine(p) && p.pos.InNumber? && !Step(j, c).error
    ensures Took(Step(j, c), p, c, q)
  {
    hide Kinds, FramesText, FramesFine, Seen, Took, Collected, EndNumber, Boundary, Terminal, NumberNext, Ok;
    MatchesOk(j, p);
    match NumberNext(j.sub, c)
    case Goes(sub) =>
      q := p.(pos := InNumber(p.pos.t + [c]));
      StepCollects(j, c);
      PosMore(p, q, c);
      TookFrom(Step(j, c), p, c, q);
    case Ends => q := NumberStops(j, p, c);
  }

  lemma {:induction false} NumberWhole(j: Js, p: Partial) returns (k: Js)
    requires Matches(j, p) && Fine(p) && p.pos.InNumber? && !EndNumber(j).error
    ensures Ok(k) && !k.error && !k.complete && k.stack == Kinds(p.frames) && EndNumber(j) == ValueDone(k)
    ensures Space(p.lead) && FramesFine(p.frames) && IsNumber(p.pos.t) && |p.pos.t| <= NUM_MAX
    ensures WideDoc(Num(p.pos.t)) && Shallow(Num(p.pos.t), MAX_DEPTH - |p.frames|)
  {
    hide FramesFine, Kinds, WalkAll, IsNumber;
    AutomatonIsGrammar(p.pos.t);
    k := Emit(j, NumberEv, j.num, true).(st := Value);
  }

  /** A number ends before c, and c is what comes next. */
  lemma {:induction false} NumberStops(j: Js, p: Partial, c: Byte) returns (q: Partial)
    requires Matches(j, p) && Fine(p) && p.pos.InNumber? && NumberNext(j.sub, c) == Ends && !Step(j, c).error
    ensures Took(Step(j, c), p, c, q)
  {
    hide Matches, Fine, Seen, Took, EndNumber, Boundary, Closed, FramesText, FramesFine, WideDoc, Shallow, ValueDone, IsNumber, Text;
    MatchesOk(j, p);
    EndsThere(j, p, c);
    var k := NumberWhole(j, p);
    var d := Num(p.pos.t);
    var e := Closed(p.lead, p.frames, d);
    ValueCloses(k, p.lead, p.frames, d);
    SameSeen(p, e);
    ClosedPos(p.lead, p.frames, d);
    MatchesOk(ValueDone(k), e);
    if p.frames == [] {
      q := Partial(p.lead, [], Over(d, [c]));
      assert [] + [c] == [c];
      Trailing(ValueDone(k), e, c, q);
    } else {
      q := BoundaryTaken(ValueDone(k), e, c);
    }
    TookSame(Step(j, c), p, e, c, q);
  }

  lemma EndsThere(j: Js, p: Partial, c: Byte)
    requires Matches(j, p) && p.pos.InNumber? && NumberNext(j.sub, c) == Ends && !Step(j, c).error
    requires Ok(j) && !j.error
    ensures !EndNumber(j).error && Step(j, c) == (if p.frames == [] then EndNumber(j) else Boundary(EndNumber(j), c))
  {
    hide Boundary, NumberNext, Kinds, Collected;
    assert p.frames == [] <==> j.stack == [];
  }

  lemma SameSeen(p: Partial, e: Partial)
    requires p.pos.InNumber? && Seen(e) == p.lead + FramesText(p.frames) + Text(Num(p.pos.t))
    ensures Seen(e) == Seen(p)
  {
  }

  lemma ClosedPos(lead: seq<Byte>, fs: seq<Frame>, d: Doc)
    ensures var q := Closed(lead, fs, d); if fs == [] then q == Partial(lead, [], Over(d, [])) else Between(q.pos)
  {
  }

  lemma TookSame(r: Js, p: Partial, e: Partial, c: Byte, q: Partial)
    requires Took(r, e, c, q) && Seen(e) == Seen(p)
    ensures Took(r, p, c, q)
  {
  }

  /** Behind a whole text nothing is looked at. */
  lemma {:induction false} Trailing(r: Js, e: Partial, c: Byte, q: Partial)
    requires Matches(r, e) && Fine(e) && e.pos.Over? && q == e.(pos := Over(e.pos.d, e.pos.rest + [c]))
    ensures Took(r, e, c, q)
  {
    hide FramesText, Text, WideDoc, Shallow, FramesFine;
    var (t, rest) := (Text(e.pos.d), e.pos.rest);
    assert t + (rest + [c]) == t + rest + [c];
    PosMore(e, q, c);
  }

  // ---- whole texts ---------------------------------------------------------------------------

  /** Every byte taken keeps the record of what has been read. */
  lemma {:induction false} ByteTaken(j: Js, p: Partial, c: Byte) returns (q: Partial)
    requires Matches(j, p) && Fine(p) && !Step(j, c).error
    ensures Took(Step(j, c), p, c, q)
  {
    MatchesOk(j, p);
    StepAt(j, p, c);
    hide Step, Fine, Took, Matches, Boundary;
    match p.pos
    case InNumber(t) => q := NumberGrows(j, p, c);
    case InLiteral(w, m) => q := LiteralGrows(j, p, c);
    case InText(cs, part) => if part == [] && c == '"' as int { q := TextEnds(j, p); } else { q := TextGrows(j, p, c); }
    case InKey(members, w, cs, part) => if part == [] && c == '"' as int { q := KeyEnds(j, p); } else { q := KeyGrows(j, p, c); }
    case Over(d, rest) =>
      q := p.(pos := Over(d, rest + [c]));
      Trailing(j, p, c, q);
    case _ => q := BoundaryTaken(j, p, c);
  }

  lemma StepAt(j: Js, p: Partial, c: Byte)
    requires Matches(j, p)
    ensures Between(p.pos) ==> Step(j, c) == Boundary(j, c)
    ensures p.pos.Over? ==> Step(j, c) == j
  {
    hide Boundary;
  }

  lemma {:induction false} RunTaken(j: Js, p: Partial, s: seq<Byte>) returns (q: Partial)
    requires Matches(j, p) && Fine(p) && Ok(j) && !Run(j, s).error
    ensures Matches(Run(j, s), q) && Fine(q) && Seen(q) == Seen(p) + s
    decreases |s|
  {
    hide Step, Fine, Matches, Seen, Ok, Took;
    if s == [] {
      q := p;
      assert Seen(p) + [] == Seen(p);
    } else {
      MatchesOk(j, p);
      NotYet(j, s);
      var m := ByteTaken(j, p, s[0]);
      TookGives(Step(j, s[0]), p, s[0], m);
      q := RunTaken(Step(j, s[0]), m, s[1..]);
      assert Seen(p) + s == Seen(p) + [s[0]] + s[1..];
    }
  }

  lemma TookGives(r: Js, p: Partial, c: Byte, q: Partial)
    requires Took(r, p, c, q)
    ensures Matches(r, q) && Fine(q) && Seen(q) == Seen(p) + [c] && Ok(r)
  {
    MatchesOk(r, q);
    hide Matches, Fine, Seen;
  }

  lemma NotYet(j: Js, s: seq<Byte>)
    requires Ok(j) && s != [] && !Run(j, s).error
    ensures !Step(j, s[0]).error
  {
    hide Step;
    if Step(j, s[0]).error { RunStuck(Step(j, s[0]), s[1..]); }
  }

  /** What the tokenizer accepts is a value of at most twelve containers one in the other, written out,
      with whitespace before it; what stands behind it is not looked at. */
  lemma {:induction false} AcceptedIsJson(s: seq<Byte>) returns (w0: seq<Byte>, d: Doc, rest: seq<Byte>)
    requires Finish(Run(Start(), s)).1
    ensures s == w0 + (Text(d) + rest) && Space(w0) && WideDoc(d) && Shallow(d, MAX_DEPTH)
  {
    hide *;
    var p := Partial([], [], AtValue);
    Begins(p);
    var r := Run(Start(), s);
    FinishIs(r);
    var q := RunTaken(Start(), p, s);
    assert Seen(q) == s;
    if q.pos.Over? {
      w0, d, rest := q.lead, q.pos.d, q.pos.rest;
      OverIs(r, q);
    } else {
      NumberIs(r, q);
      w0, d, rest := q.lead, Num(q.pos.t), [];
    }
  }

  lemma Begins(p: Partial)
    requires p == Partial([], [], AtValue)
    ensures Matches(Start(), p) && Fine(p) && Seen(p) == [] && Ok(Start())
  {
  }

  lemma FinishIs(r: Js)
    requires Ok(r)
    ensures Finish(r).1 ==> !r.error
    ensures Finish(r).1 && !r.complete ==> r.st.Number? && r.stack == [] && !EndNumber(r).error
  {
  }

  lemma OverIs(r: Js, q: Partial)
    requires Matches(r, q) && Fine(q) && q.pos.Over?
    ensures Seen(q) == q.lead + (Text(q.pos.d) + q.pos.rest) && Space(q.lead) && WideDoc(q.pos.d) && Shallow(q.pos.d, MAX_DEPTH)
  {
    hide Text, WideDoc, Shallow;
    assert q.frames == [];
    assert q.lead + [] + (Text(q.pos.d) + q.pos.rest) == q.lead + (Text(q.pos.d) + q.pos.rest);
  }

  lemma NumberIs(r: Js, q: Partial)
    requires Matches(r, q) && Fine(q) && !q.pos.Over? && Ok(r) && Finish(r).1
    ensures q.pos.InNumber? && Seen(q) == q.lead + (Text(Num(q.pos.t)) + []) && Space(q.lead)
    ensures WideDoc(Num(q.pos.t)) && Shallow(Num(q.pos.t), MAX_DEPTH)
  {
    InNumberThen(r, q);
    hide *;
    var k := NumberWhole(r, q);
    NumberSeen(q);
  }

  lemma InNumberThen(r: Js, q: Partial)
    requires Matches(r, q) && !q.pos.Over? && Ok(r) && Finish(r).1
    ensures q.pos.InNumber? && q.frames == [] && !EndNumber(r).error
  {
    FinishIs(r);
    hide Finish, EndNumber, Kinds, Collected;
    assert q.frames == [] <==> |Kinds(q.frames)| == 0;
  }

  lemma NumberSeen(q: Partial)
    requires q.pos.InNumber? && q.frames == []
    ensures Seen(q) == q.lead + (Text(Num(q.pos.t)) + [])
  {
    assert q.lead + [] + q.pos.t == q.lead + (q.pos.t + []);
  }
}
