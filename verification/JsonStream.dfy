/** The tokenizer's code: chunks of any size are fed in, runs of plain string bytes go out straight
    from the caller's buffer. */
module JsonStream {
  import opened Prelude
  import opened Json

  /** Every event of a log, string chunks cut into bytes. */
  function Cuts(log: seq<Event>): seq<Event> {
    if log == [] then [] else Cuts(log[..|log| - 1]) + Cut(log[|log| - 1])
  }

  lemma {:induction false} CutsMore(log: seq<Event>, e: Event)
    ensures Cuts(log + [e]) == Cuts(log) + Cut(e)
  {
    assert (log + [e])[..|log|] == log;
  }

  /** A chunk says no more than its bytes one by one. */
  lemma {:induction false} ChunkBytes(j: Js, a: seq<Byte>, c: Byte)
    requires Ok(j)
    ensures EmitBytes(EmitBytes(j, a), [c]) == EmitBytes(j, a + [c])
  {
    if !j.inKey {
      CutBytes(Event(StringEv, a, false, j.stack, j.index, j.key), c);
    }
  }

  lemma {:induction false} CutBytes(e: Event, c: Byte)
    requires e.kind.StringEv? && !e.final
    ensures Cut(e.(data := e.data + [c])) == Cut(e) + Cut(e.(data := [c]))
  {
  }

  lemma {:induction false} EmitNothing(j: Js)
    requires Ok(j)
    ensures EmitBytes(j, []) == j
  {
    assert j.out + [] == j.out;
  }

  /** A run of plain bytes inside a string. */
  lemma {:induction false} PlainRun(j: Js, s: seq<Byte>)
    requires Ok(j) && j.st.String? && j.pending == 0 && forall k :: 0 <= k < |s| ==> IsPlain(s[k])
    ensures Run(j, s) == EmitBytes(j, s)
    decreases |s|
  {
    if s == [] {
      EmitNothing(j);
    } else {
      var n := |s| - 1;
      PlainRun(j, s[..n]);
      assert s[..n] + [s[n]] == s;
      RunSplit(j, s[..n], [s[n]]);
      RunOne(Run(j, s[..n]), s[n]);
      ChunkBytes(j, s[..n], s[n]);
    }
  }

  lemma {:induction false} RunOne(j: Js, c: Byte)
    requires Ok(j)
    ensures Run(j, [c]) == Step(j, c)
  {
    assert [c][1..] == [];
  }

  /** What the consumer answers to an event, after all it was told before: false aborts the parse. */
  type Sink = (seq<Event>, Event) -> bool

  /** The consumer accepted every event, unless the last aborted the parse. */
  ghost predicate Heard(sink: Sink, log: seq<Event>, aborted: bool) {
    && (forall k :: 0 <= k < |log| - 1 ==> sink(log[..k], log[k]))
    && (aborted <==> log != [] && !sink(log[..|log| - 1], log[|log| - 1]))
  }

  lemma {:induction false} HearsMore(sink: Sink, log: seq<Event>, e: Event)
    requires Heard(sink, log, false)
    ensures Heard(sink, log + [e], !sink(log, e))
  {
    var more := log + [e];
    assert more[..|log|] == log;
    forall k | 0 <= k < |more| - 1 ensures sink(more[..k], more[k]) {
      assert more[..k] == log[..k];
    }
  }

  /** What was told stays told. */
  lemma {:induction false} BytesGrow(j: Js, b: seq<Byte>)
    requires Ok(j)
    ensures j.out <= EmitBytes(j, b).out
  {
  }

  class Stream {
    const sink: Sink
    var st: St
    var sub: nat
    var stack: seq<Kind>
    var index: seq<nat>
    var key: seq<seq<Byte>>
    var error: bool
    var complete: bool
    var keybuf: seq<Byte>
    var num: seq<Byte>
    var matched: nat
    var uescape: nat
    var pending: nat
    var inKey: bool
    var log: seq<Event>
    var aborted: bool
    /** Once the consumer has aborted: what the bytes fed would have come to without it. */
    ghost var without: Js

    function Fields(): Js
      reads this
    {
      Js(st, sub, stack, index, key, error, complete, keybuf, num, matched, uescape, pending, inKey, Cuts(log))
    }

    /** The tokenizer's state, or the one it would have had but for the abort. */
    ghost function View(): Js
      reads this
    {
      if aborted then without else Fields()
    }

    /** After an abort the stream is in error, and what it told is a front of the events of the text. */
    ghost predicate Valid()
      reads this
    {
      Heard(sink, log, aborted) && (aborted ==> error && st.Error? && Cuts(log) <= without.out)
    }

    ghost predicate Going()
      reads this`log, this`aborted
    {
      !aborted && Heard(sink, log, false)
    }

    constructor (sink: Sink)
      ensures Valid() && !aborted && View() == Start() && this.sink == sink
    {
      this.sink := sink;
      st, sub, stack, index, key, error, complete := Value, 0, [], [], [], false, false;
      keybuf, num, matched, uescape, pending, inKey, log := [], [], 0, 0, 0, false, [];
      aborted := false;
    }

    method FailNow() returns (ok: bool)
      requires Going()
      modifies this`error, this`st
      ensures Going() && View() == Fail(old(View())) && !ok
    {
      error, st, ok := true, Error, false;
    }

    /** emit: the consumer is told; if it refuses, the parse fails. */
    method Tell(kind: EventKind, data: seq<Byte>, final: bool) returns (keep: bool)
      requires Going()
      modifies this`log, this`aborted, this`error, this`st
      ensures keep == !aborted && Heard(sink, log, aborted) && Cuts(log) == Emit(old(View()), kind, data, final).out
      ensures keep ==> error == old(error) && st == old(st) && View() == Emit(old(View()), kind, data, final)
      ensures !keep ==> error && st.Error?
    {
      var e := Event(kind, data, final, stack, index, key);
      CutsMore(log, e);
      HearsMore(sink, log, e);
      keep := sink(log, e);
      log := log + [e];
      if !keep { error, st, aborted := true, Error, true; }
    }

    /** The consumer aborted on the way to j. */
    ghost method Halt(j: Js)
      requires aborted && error && st.Error? && Heard(sink, log, aborted) && Cuts(log) <= j.out
      modifies this`without
      ensures Valid() && View() == j
    {
      without := j;
    }

    method TellBytes(b: seq<Byte>) returns (keep: bool)
      requires Going() && Ok(View())
      modifies this`keybuf, this`log, this`aborted, this`error, this`st, this`without
      ensures Valid() && keep == !aborted && View() == EmitBytes(old(View()), b)
      ensures (keep ==> error == old(error)) && (inKey ==> keep)
    {
      hide Cut, Cuts, Heard;
      if inKey {
        var room := KEY_MAX - |keybuf|;
        keybuf := keybuf + if |b| > room then b[..room] else b;
        keep := true;
      } else {
        keep := Tell(StringEv, b, false);
        if !keep { Halt(EmitBytes(old(View()), b)); }
      }
    }

    method Flush() returns (keep: bool)
      requires Going() && Ok(View())
      modifies this`pending, this`keybuf, this`log, this`aborted, this`error, this`st, this`without
      ensures Valid() && keep == !aborted && View() == FlushPending(old(View()))
      ensures keep ==> error == old(error)
    {
      hide Cut, Cuts, EmitBytes, Heard;
      keep := true;
      if pending != 0 {
        pending := 0;
        keep := TellBytes(Utf8(0xFFFD));
      }
    }

    method Finished()
      requires Going() && Ok(View()) && !error
      modifies this`complete, this`st
      ensures Going() && View() == ValueDone(old(View()))
    {
      hide Cuts, Heard;
      if |stack| == 0 { complete, st := true, Done; } else { st := After; }
    }

    method Open(kind: Kind) returns (ok: bool)
      requires Going() && Ok(View()) && !error
      modifies this
      ensures Valid() && View() == Push(old(View()), kind) && ok == !error
    {
      hide Cut, Cuts, Heard;
      if |stack| >= MAX_DEPTH { ok := FailNow(); return; }
      ok := Tell(if kind.Obj? then ObjStart else ArrStart, [], true);
      if !ok { Halt(Push(old(View()), kind)); return; }
      AddTop(kind);
    }

    method AddTop(kind: Kind)
      requires Going() && !error
      modifies this`stack, this`index, this`key, this`st
      ensures View() == old(View()).(stack := old(stack) + [kind], index := old(index) + [0], key := old(key) + [[]],
                                     st := if kind.Obj? then ObjFirst else ArrFirst)
    {
      hide Cuts, Heard;
      stack, index, key := stack + [kind], index + [0], key + [[]];
      st := if kind.Obj? then ObjFirst else ArrFirst;
    }

    method Close(kind: Kind) returns (ok: bool)
      requires Going() && Ok(View()) && !error
      modifies this
      ensures Valid() && View() == Pop(old(View()), kind) && ok == !error
    {
      hide Cut, Cuts, Heard;
      if |stack| == 0 || stack[|stack| - 1] != kind { ok := FailNow(); return; }
      DropTop();
      ok := Tell(if kind.Obj? then ObjEnd else ArrEnd, [], true);
      if !ok { Halt(Pop(old(View()), kind)); return; }
      Finished();
    }

    method StartKey()
      requires Going() && Ok(View()) && !error && |stack| > 0
      modifies this`inKey, this`keybuf, this`st
      ensures Going() && View() == BeginKey(old(View()))
    {
      inKey, keybuf, st := true, [], String;
    }

    method StartValue(c: Byte) returns (ok: bool)
      requires Going() && Ok(View()) && !error
      modifies this
      ensures Valid() && View() == BeginValue(old(View()), c) && ok == !error
    {
      hide Cuts, Push, Heard;
      if c == '{' as int { ok := Open(Obj); }
      else if c == '[' as int { ok := Open(Arr); }
      else if c == '"' as int { inKey, st, ok := false, String, true; }
      else if c == 't' as int || c == 'f' as int || c == 'n' as int { st, sub, matched, ok := Literal, c, 1, true; }
      else if c == '-' as int || IsDigit(c) {
        st, num, ok := Number, [c], true;
        sub := if c == '-' as int then 0 else if c == '0' as int then 1 else 2;
      } else { ok := FailNow(); }
    }

    method StopNumber() returns (ok: bool)
      requires Going() && Ok(View()) && !error
      modifies this
      ensures Valid() && View() == EndNumber(old(View())) && ok == !error
    {
      hide Cut, Cuts, Heard;
      if !Terminal(sub) { ok := FailNow(); return; }
      ok := Tell(NumberEv, num, true);
      if !ok { Halt(EndNumber(old(View()))); return; }
      st := Value;
      Finished();
    }

    method StopUescape() returns (keep: bool)
      requires Going() && Ok(View())
      modifies this`pending, this`keybuf, this`log, this`aborted, this`error, this`st, this`without
      ensures Valid() && keep == !aborted && View() == EndUescape(old(View()))
      ensures keep ==> error == old(error)
    {
      hide Cut, Cuts, EmitBytes, Utf8, Heard, FlushPending;
      var cp := uescape;
      if pending != 0 && Low(cp) {
        cp := Pair(pending, cp);
        pending := 0;
        keep := TellBytes(Utf8(cp));
        return;
      }
      ghost var f := FlushPending(View());
      if !High(cp) { BytesGrow(f, Utf8(if Low(cp) then 0xFFFD else cp)); }
      keep := Flush();
      if !keep { Halt(EndUescape(old(View()))); return; }
      if High(cp) { pending := cp; return; }
      keep := TellBytes(Utf8(if Low(cp) then 0xFFFD else cp));
    }

    method BetweenTokens(c: Byte) returns (ok: bool)
      requires Going() && Ok(View()) && !error
      requires !InString(st) && !st.Number? && !st.Literal? && !st.Done?
      modifies this
      ensures Valid() && View() == Boundary(old(View()), c) && ok == !error
    {
      hide Cuts, Push, Pop, BeginValue, Heard;
      ok := true;
      if IsSpace(c) { return; }
      match st {
        case Value => ok := StartValue(c);
        case ArrFirst => if c == ']' as int { ok := Close(Arr); } else { ok := StartValue(c); }
        case ObjFirst =>
          if c == '}' as int { ok := Close(Obj); }
          else if c == '"' as int { StartKey(); }
          else { ok := FailNow(); }
        case ObjKey => if c == '"' as int { StartKey(); } else { ok := FailNow(); }
        case Colon => if c == ':' as int { st := Value; } else { ok := FailNow(); }
        case After =>
          var n := |stack| - 1;
          if c == ',' as int {
            index := index[n := (index[n] + 1) % 0x1_0000];
            st := if stack[n].Obj? then ObjKey else Value;
          }
          else if c == ']' as int { ok := Close(Arr); }
          else if c == '}' as int { ok := Close(Obj); }
          else { ok := FailNow(); }
      }
    }

    method TakeEscape(c: Byte) returns (ok: bool)
      requires Going() && Ok(View()) && st.Escape?
      modifies this
      ensures Valid() && View() == EscapeByte(old(View()), c) && ok == !error
    {
      hide Cuts, FlushPending, EmitBytes, Heard;
      ok := true;
      if c == 'u' as int { st, sub, uescape := UHex, 0, 0; return; }
      if Unescaped(c) == None { ok := FailNow(); return; }
      BytesGrow(FlushPending(View()), [Unescaped(c).value]);
      ok := Flush();
      if ok { ok := TellBytes([Unescaped(c).value]); }
      if !ok { Halt(EscapeByte(old(View()), c)); return; }
      st := String;
    }

    method TakeDigit(v: nat)
      requires Going() && Ok(View()) && v < 16
      modifies this`uescape, this`sub
      ensures Going() && sub == (old(sub) + 1) % 256
      ensures View() == old(View()).(uescape := (old(uescape) * 16 + v) % 0x1_0000, sub := sub)
    {
      hide Cuts, Heard;
      uescape := (uescape * 16 + v) % 0x1_0000;
      sub := (sub + 1) % 256;
    }

    method TakeHex(c: Byte) returns (ok: bool)
      requires Going() && Ok(View()) && st.UHex?
      modifies this
      ensures Valid() && View() == HexByte(old(View()), c) && ok == !error
    {
      hide Cuts, EndUescape, Heard, HexValue;
      ok := true;
      var v := HexValue(c);
      if v == None { ok := FailNow(); return; }
      TakeDigit(v.value);
      if sub == 4 {
        ok := StopUescape();
        if !ok { Halt(HexByte(old(View()), c)); return; }
        st := String;
      }
    }

    method TakeLiteral(c: Byte) returns (ok: bool)
      requires Going() && Ok(View()) && st.Literal?
      modifies this
      ensures Valid() && View() == LiteralByte(old(View()), c) && ok == !error
    {
      hide Cut, Cuts, Heard;
      ok := true;
      if Letters(sub)[matched] as int != c { ok := FailNow(); return; }
      matched := matched + 1;
      if matched == |Letters(sub)| {
        ok := Tell(if sub == 't' as int then TrueEv else if sub == 'f' as int then FalseEv else NullEv, [], true);
        if !ok { Halt(LiteralByte(old(View()), c)); return; }
        st := Value;
        Finished();
      }
    }

    /** One byte of a number: taken, or the number ends before it and it is left for the next state. */
    method TakeNumber(c: Byte) returns (ok: bool, taken: bool)
      requires Going() && Ok(View()) && st.Number?
      modifies this
      ensures Valid() && ok == !error
      ensures taken ==> View() == NumberByte(old(View()), c)
      ensures !taken ==> NumberNext(old(sub), c) == Ends && View() == EndNumber(old(View()))
    {
      hide Cuts, Heard;
      match NumberNext(sub, c) {
        case Bad => ok := FailNow(); taken := true;
        case Goes(ns) =>
          taken := true;
          if |num| >= NUM_MAX { ok := FailNow(); return; }
          num, sub, ok := num + [c], ns, true;
        case Ends => ok := StopNumber(); taken := false;
      }
    }

    /** The end of a string's run of plain bytes: its closing quote, a backslash or a control byte. */
    method EndRun(c: Byte) returns (ok: bool)
      requires Going() && Ok(View()) && st.String? && !IsPlain(c) && c != '"' as int
      modifies this`st, this`error
      ensures Going() && View() == StringByte(old(View()), c) && ok == !error
    {
      hide Cuts, Heard;
      ok := true;
      if c == '\\' as int { st := Escape; } else { ok := FailNow(); }
    }

    method DropTop()
      requires Going() && Ok(View()) && !error && |stack| > 0
      modifies this`stack, this`index, this`key, this`st
      ensures Going() && var (j, n) := (old(View()), |old(stack)| - 1);
              View() == j.(stack := j.stack[..n], index := j.index[..n], key := j.key[..n], st := Value) && Ok(View())
    {
      hide Cuts, Heard;
      var n := |stack| - 1;
      stack, index, key, st := stack[..n], index[..n], key[..n], Value;
    }

    method CloseQuote(b: seq<Byte>) returns (ok: bool)
      requires Going() && Ok(View()) && st.String?
      modifies this
      ensures Valid() && View() == CloseString(EmitBytes(old(View()), b)) && ok == !error
    {
      hide Cuts, CloseString, EmitBytes, Heard;
      if inKey {
        ok := TellBytes(b);
        KeyBytes(old(View()), b);
        ok := CloseKey();
      } else {
        ok := CloseValue(b);
      }
    }

    /** Bytes of a key are not told. */
    static lemma KeyBytes(j: Js, b: seq<Byte>)
      requires Ok(j) && j.inKey
      ensures EmitBytes(j, b).out == j.out
    {
    }

    method CloseKey() returns (ok: bool)
      requires Going() && Ok(View()) && st.String? && inKey
      modifies this
      ensures Valid() && View() == CloseString(old(View())) && ok == !error
    {
      hide Cuts, Cut, Heard;
      key := key[|stack| - 1 := keybuf];
      inKey := false;
      ok := Tell(KeyEv, keybuf, true);
      if !ok { Halt(CloseString(old(View()))); return; }
      st := Colon;
    }

    method CloseValue(b: seq<Byte>) returns (ok: bool)
      requires Going() && Ok(View()) && st.String? && !inKey
      modifies this
      ensures Valid() && View() == CloseString(EmitBytes(old(View()), b)) && ok == !error
    {
      hide Cuts, Cut, Heard;
      LastChunk(View(), b);
      ok := Tell(StringEv, b, true);
      if !ok { Halt(CloseString(EmitBytes(old(View()), b))); return; }
      Finished();
    }

    /** The longest run of plain bytes at i. */
    static method PlainEnd(data: seq<Byte>, i: nat) returns (e: nat)
      requires i <= |data|
      ensures i <= e <= |data| && (forall k :: i <= k < e ==> IsPlain(data[k])) && (e < |data| ==> !IsPlain(data[e]))
    {
      e := i;
      while e < |data| && IsPlain(data[e])
        invariant i <= e <= |data| && forall k :: i <= k < e ==> IsPlain(data[k])
      {
        e := e + 1;
      }
    }

    /** Bytes of a string up to and including the one that ends the run, or to the end of the chunk. */
    method TakeString(data: seq<Byte>, i: nat) returns (ok: bool, e: nat)
      requires Going() && Ok(View()) && st.String? && i < |data|
      modifies this
      ensures Valid() && i < e <= |data| && View() == Run(old(View()), data[i..e]) && ok == !error
    {
      hide Cuts, Cut, EmitBytes, Run, Step, StringByte, FlushPending, Heard;
      ghost var j := View();
      ok := true;
      if pending != 0 && data[i] != '\\' as int { ok := Flush(); }
      ghost var f := View();
      Flushed(j, f, data[i]);
      if !ok {
        e := i + 1;
        assert data[i..e] == [data[i]];
        RunOne(j, data[i]);
        FirstGrows(j, data[i]);
        Halt(Run(j, data[i..e]));
        return;
      }
      e := PlainEnd(data, i);
      StringRun(j, f, data, i, e);
      ok, e := TakeRun(j, f, data, i, e);
    }

    /** The run, once nothing is left waiting. */
    method TakeRun(ghost j: Js, ghost f: Js, data: seq<Byte>, i: nat, n: nat) returns (ok: bool, e: nat)
      requires Going() && View() == f && Ok(f) && f.st.String? && i <= n <= |data| && i < |data| && !error && Ok(j)
      requires var r := EmitBytes(f, data[i..n]); Ok(r) && r.st.String?
      requires n > i ==> Run(j, data[i..n]) == EmitBytes(f, data[i..n])
      requires n < |data| ==> !IsPlain(data[n]) && Run(j, data[i..n + 1]) == StringByte(EmitBytes(f, data[i..n]), data[n])
      modifies this
      ensures Valid() && i < e <= |data| && View() == Run(j, data[i..e]) && ok == !error
    {
      hide Cuts, Cut, EmitBytes, Run, Step, StringByte, FlushPending, Heard;
      var run := data[i..n];
      if n < |data| && data[n] == '"' as int {
        ok := CloseQuote(run);
        CloseIs(EmitBytes(f, run));
        return ok, n + 1;
      }
      ok := true;
      if n > i { ok := TellBytes(run); } else { EmitNothing(f); assert run == []; }
      assert View() == EmitBytes(f, run);
      if !ok { return false, n; }
      if n >= |data| { return true, n; }
      ok := EndRun(data[n]);
      return ok, n + 1;
    }

    /** json_stream_feed: the same as the bytes one at a time, wherever the chunk begins and ends. */
    method Feed(data: seq<Byte>) returns (ok: bool)
      requires Valid() && Ok(View())
      modifies this
      ensures Valid() && Ok(View()) && View() == Run(old(View()), data) && ok == !error
    {
      hide Cuts, Ok, Run, Step, NumberByte, EndNumber, Heard;
      if error {
        if aborted { RunGrows(View(), data); Halt(Run(View(), data)); } else { Stuck(View(), data); }
        return false;
      }
      var i := 0;
      assert data[0..] == data;
      while i < |data|
        invariant 0 <= i <= |data| && Going() && Ok(View()) && !error
        invariant Run(View(), data[i..]) == Run(old(View()), data)
        decreases |data| - i, if st.Number? then 1 else 0
      {
        if st.Done? { Stuck(View(), data[i..]); return true; }
        ghost var j := View();
        var e: nat;
        ok, e := TakeOne(data, i);
        if e > i { Consumed(j, View(), data, i, e); } else { Reprocess(j, View(), data[i..]); }
        i := e;
        if !ok {
          if aborted { RunGrows(View(), data[i..]); Halt(Run(View(), data[i..])); } else { Stuck(View(), data[i..]); }
          return false;
        }
      }
      RunNothing(View(), data[i..]);
      ok := true;
    }

    /** One turn of the loop: some bytes are taken, or a number is ended and its terminator kept. */
    method TakeOne(data: seq<Byte>, i: nat) returns (ok: bool, e: nat)
      requires Going() && Ok(View()) && !error && !st.Done? && i < |data|
      modifies this
      ensures Valid() && i <= e <= |data| && ok == !error && Ok(View())
      ensures e > i ==> View() == Run(old(View()), data[i..e])
      ensures e == i ==> old(st).Number? && NumberNext(old(sub), data[i]) == Ends && View() == EndNumber(old(View()))
    {
      hide Cuts, Run, NumberByte, EndNumber, LiteralByte, HexByte, EscapeByte, Boundary, Heard;
      var c := data[i];
      assert data[i..i + 1] == [c];
      RunOne(View(), c);
      e := i + 1;
      if st.String? { ok, e := TakeString(data, i); }
      else if st.Escape? { ok := TakeEscape(c); }
      else if st.UHex? { ok := TakeHex(c); }
      else if st.Literal? { ok := TakeLiteral(c); }
      else if st.Number? {
        var taken;
        ok, taken := TakeNumber(c);
        if !taken { e := i; }
      } else { ok := BetweenTokens(c); }
    }

    /** json_stream_finish. */
    method Finish() returns (ok: bool)
      requires Valid() && Ok(View())
      modifies this
      ensures Valid() && (aborted ==> !ok) && (!aborted ==> (View(), ok) == Json.Finish(old(View())))
    {
      hide Cuts, ValueDone, Heard;
      if error { return false; }
      if complete { return true; }
      if st.Number? && |stack| == 0 {
        ok := StopNumber();
        EndedClean(old(View()));
        if ok || aborted { return; }
      }
      ok := FailNow();
    }
  }

  lemma {:induction false} FirstGrows(j: Js, c: Byte)
    requires Ok(j) && j.st.String? && c != '\\' as int
    ensures FlushPending(j).out <= Step(j, c).out
  {
    hide EmitBytes, FlushPending, CloseString;
    BytesGrow(FlushPending(j), [c]);
    CloseGrows(FlushPending(j));
  }

  lemma {:induction false} FlushGrows(j: Js)
    requires Ok(j)
    ensures j.out <= FlushPending(j).out
  {
    hide EmitBytes, Utf8;
    BytesGrow(j.(pending := 0), Utf8(0xFFFD));
  }

  lemma {:induction false} UescapeGrows(j: Js)
    requires Ok(j)
    ensures j.out <= EndUescape(j).out
  {
    hide EmitBytes, Utf8, FlushPending;
    FlushGrows(j);
    var cp := j.uescape;
    if j.pending != 0 && Low(cp) {
      BytesGrow(j.(pending := 0), Utf8(Pair(j.pending, cp)));
    } else if !High(cp) {
      BytesGrow(FlushPending(j), Utf8(if Low(cp) then 0xFFFD else cp));
    }
  }

  lemma {:induction false} CloseGrows(j: Js)
    requires Ok(j) && j.st.String?
    ensures j.out <= CloseString(j).out
  {
    hide Cut;
  }

  lemma {:induction false} BoundaryGrows(j: Js, c: Byte)
    requires Ok(j) && !j.error
    ensures j.out <= Boundary(j, c).out
  {
    hide Push, Pop, BeginValue;
    StackGrows(j, Obj);
    StackGrows(j, Arr);
    ValueGrows(j, c);
  }

  lemma {:induction false} ValueGrows(j: Js, c: Byte)
    requires Ok(j) && !j.error
    ensures j.out <= BeginValue(j, c).out
  {
    hide Push;
    StackGrows(j, Obj);
    StackGrows(j, Arr);
  }

  lemma {:induction false} NumberGrows(j: Js)
    requires Ok(j) && !j.error
    ensures j.out <= EndNumber(j).out
  {
    hide Cut;
  }

  lemma {:induction false} StackGrows(j: Js, kind: Kind)
    requires Ok(j) && !j.error
    ensures j.out <= Push(j, kind).out && j.out <= Pop(j, kind).out
  {
    hide Cut;
  }

  lemma {:induction false} TextGrows(j: Js, c: Byte)
    requires Ok(j) && InString(j.st)
    ensures j.out <= Step(j, c).out
  {
    hide EmitBytes, EndUescape, FlushPending, CloseString, HexValue, Unescaped;
    FlushGrows(j);
    match j.st
    case String =>
      if c != '\\' as int { FirstGrows(j, c); }
    case Escape =>
      if Unescaped(c).Some? { BytesGrow(FlushPending(j), [Unescaped(c).value]); }
    case UHex =>
      if HexValue(c).Some? { UescapeGrows(j.(uescape := (j.uescape * 16 + HexValue(c).value) % 0x1_0000, sub := (j.sub + 1) % 256)); }
  }

  lemma {:induction false} StepGrows(j: Js, c: Byte)
    requires Ok(j)
    ensures j.out <= Step(j, c).out
  {
    hide Cut, Boundary, NumberNext, EndNumber, StringByte, EscapeByte, HexByte;
    if InString(j.st) {
      TextGrows(j, c);
    } else if j.st.Number? {
      NumberGrows(j);
      var e := EndNumber(j);
      if !e.error { BoundaryGrows(e, c); }
    } else if !j.st.Literal? && !j.error {
      BoundaryGrows(j, c);
    }
  }

  /** Feeding more never takes back what was told. */
  lemma {:induction false} RunGrows(j: Js, s: seq<Byte>)
    requires Ok(j)
    ensures j.out <= Run(j, s).out
    decreases |s|
  {
    hide Step, Ok;
    if s != [] {
      StepGrows(j, s[0]);
      RunGrows(Step(j, s[0]), s[1..]);
    }
  }

  lemma {:induction false} EndedClean(j: Js)
    requires Ok(j) && !j.error
    ensures EndNumber(j).error <==> !Terminal(j.sub)
    ensures !Terminal(j.sub) ==> EndNumber(j) == Fail(j)
  {
  }

  lemma {:induction false} Stuck(j: Js, s: seq<Byte>)
    requires Ok(j) && (j.error || j.st.Done?)
    ensures Run(j, s) == j
  {
    hide Run, Step;
    RunStuck(j, s);
  }

  lemma {:induction false} RunNothing(j: Js, s: seq<Byte>)
    requires Ok(j) && s == []
    ensures Run(j, s) == j
  {
  }

  lemma {:induction false} Consumed(j: Js, j': Js, data: seq<Byte>, i: nat, e: nat)
    requires Ok(j) && i <= e <= |data| && j' == Run(j, data[i..e])
    ensures Ok(j') && Run(j', data[e..]) == Run(j, data[i..])
  {
    hide Run, Step, Ok;
    assert data[i..] == data[i..e] + data[e..];
    RunSplit(j, data[i..e], data[e..]);
  }

  /** The byte that ended a number is processed again in the state after it. */
  lemma {:induction false} Reprocess(j: Js, j': Js, s: seq<Byte>)
    requires Ok(j) && j.st.Number? && s != [] && NumberNext(j.sub, s[0]) == Ends && j' == EndNumber(j)
    ensures Ok(j') && !j'.st.Number? && Run(j', s) == Run(j, s)
  {
    hide EndNumber, Boundary;
    assert Step(j, s[0]) == NumberByte(j, s[0]);
    if j'.error || j'.st.Done? {
      RunStuck(j', s);
      RunStuck(j', s[1..]);
    } else {
      assert Step(j', s[0]) == Boundary(j', s[0]);
    }
  }

  lemma {:induction false} Flushed(j: Js, f: Js, c: Byte)
    requires Ok(j) && j.st.String?
    requires f == if j.pending != 0 && c != '\\' as int then FlushPending(j) else j
    ensures f == (if c == '\\' as int then j else FlushPending(j)) && Ok(f) && f.st == j.st && f.inKey == j.inKey && !f.error
    ensures c != '\\' as int ==> f.pending == 0
  {
  }

  /** A run of plain bytes and the byte after it, from the state the run starts in. */
  lemma {:induction false} StringRun(j: Js, f: Js, data: seq<Byte>, i: nat, e: nat)
    requires Ok(j) && j.st.String? && i < |data| && i <= e <= |data| && Ok(f) && f.st.String?
    requires f == (if data[i] == '\\' as int then j else FlushPending(j)) && (data[i] != '\\' as int ==> f.pending == 0)
    requires (forall k :: i <= k < e ==> IsPlain(data[k])) && (e < |data| ==> !IsPlain(data[e]))
    ensures var r := EmitBytes(f, data[i..e]); Ok(r) && r.st.String?
    ensures e > i ==> Run(j, data[i..e]) == EmitBytes(f, data[i..e])
    ensures e < |data| ==> Run(j, data[i..e + 1]) == StringByte(EmitBytes(f, data[i..e]), data[e])
  {
    hide EmitBytes, StringByte;
    var run := data[i..e];
    if e > i {
      assert IsPlain(data[i]);
      SameStart(j, f, run);
      PlainRun(f, run);
    }
    if e < |data| {
      assert data[i..e + 1] == run + [data[e]];
      RunSplit(j, run, [data[e]]);
      if e > i {
        RunOne(EmitBytes(f, run), data[e]);
        NotPending(f, run);
      } else {
        EmitNothing(f);
        assert run == [];
        RunOne(j, data[e]);
      }
    }
  }

  lemma {:induction false} NotPending(f: Js, run: seq<Byte>)
    requires Ok(f) && f.pending == 0
    ensures FlushPending(EmitBytes(f, run)) == EmitBytes(f, run)
  {
  }

  lemma {:induction false} SameStart(j: Js, f: Js, s: seq<Byte>)
    requires Ok(j) && j.st.String? && s != [] && s[0] != '\\' as int && f == FlushPending(j)
    ensures Ok(f) && f.st.String? && Run(j, s) == Run(f, s)
  {
    hide StringByte, EmitCodepoint;
  }

  lemma {:induction false} CloseIs(j: Js)
    requires Ok(j) && j.st.String?
    ensures StringByte(j, '"' as int) == CloseString(j)
  {
  }

  /** Wherever the text is cut into feeds, the tokenizer ends in the same state having told its
      consumer the same: every key, number, literal and bracket with the same depth, key and index,
      and every string the same bytes. */
  lemma {:induction false} ChunksAgree(j: Js, chunks: seq<seq<Byte>>)
    requires Ok(j)
    ensures Fed(j, chunks) == Run(j, Flat(chunks))
    decreases |chunks|
  {
    hide Run, Step, Ok;
    if chunks == [] {
      RunNothing(j, []);
    } else {
      var n := |chunks| - 1;
      ChunksAgree(j, chunks[..n]);
      RunSplit(j, Flat(chunks[..n]), chunks[n]);
    }
  }

  ghost function Fed(j: Js, chunks: seq<seq<Byte>>): (r: Js)
    requires Ok(j)
    ensures Ok(r)
    decreases |chunks|
  {
    if chunks == [] then j else Run(Fed(j, chunks[..|chunks| - 1]), chunks[|chunks| - 1])
  }

  /** The closing chunk of a string value is its bytes and the close. */
  lemma {:induction false} LastChunk(j: Js, b: seq<Byte>)
    requires Ok(j) && !j.inKey
    ensures Emit(j, StringEv, b, true) == Emit(EmitBytes(j, b), StringEv, [], true)
  {
    var e := Event(StringEv, b, true, j.stack, j.index, j.key);
    assert Cut(e) == Cut(e.(final := false)) + Cut(e.(data := []));
    assert j.out + (Cut(e.(final := false)) + Cut(e.(data := []))) == (j.out + Cut(e.(final := false))) + Cut(e.(data := []));
  }
}
