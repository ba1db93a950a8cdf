/**
 The class `conversion` (src/abiconv/typeconv.cc, src/abiconv/loc.cc): operands and data cursor are objects that the
 methods move while they write to the stream. The stream is that of `Code`, and so does what `ConvertedIff` says.
 */
module Converter {
  import opened Wrappers
  import opened RecordLayout
  import opened ConvertCode
  import opened ConvertRun
  import opened RecordConvert

  class MemoryLocation {
    const base: Reg
    var index: int

    constructor (m: Mem)
      ensures Value() == m
    {
      base := m.base;
      index := m.index;
    }

    function Value(): Mem
      reads this
    {
      Mem(base, index)
    }

    method Push()
      modifies this
      ensures Value() == Below(old(Value()), 1)
    {
      if base == RSP {
        index := index + 8;
      }
    }

    method Pop()
      modifies this
      ensures old(Value()) == Below(Value(), 1)
    {
      if base == RSP {
        index := index - 8;
      }
    }

    method Align(t: CType, a: Arch)
      modifies this
      ensures Value() == Mem(old(Value()).base, AlignIndex(old(Value()).index, AlignOf(t, a)))
    {
      index := AlignIndex(index, AlignOf(t, a));
    }

    method AlignField(t: CType, a: Arch)
      modifies this
      ensures Value() == Mem(old(Value()).base, AlignIndex(old(Value()).index, FieldAlign(t, a)))
    {
      var align := AlignOf(t, a);
      if align == 8 && a.I386? {
        align := 4;
      }
      index := AlignIndex(index, align);
    }

    method Add(n: nat)
      modifies this
      ensures Value() == Mem(old(Value()).base, old(Value()).index + n)
    {
      index := index + n;
    }
  }

  lemma {:induction false} WalkNext(t: CType, i: nat, a: Arch, start: int)
    requires t.Struct? && i < |t.fields|
    ensures FieldAt(t, i, a, start) == AlignIndex(WalkEnd(t, i, a, start), FieldAlign(t.fields[i], a))
    ensures WalkEnd(t, i + 1, a, start) == FieldAt(t, i, a, start) + SizeOf(t.fields[i], a)
  {
    hide AlignIndex, SizeOf, FieldAlign;
  }

  lemma {:induction false} FieldsCodeStart(w: Way, t: CType, src: Mem, dst: Mem, data: int)
    requires t.Struct?
    ensures FieldsCode(w, t, 0, src, dst, data) == Some(Emitted([], data))
    ensures Code(w, t, src, dst, data) == FieldsCode(w, t, |t.fields|, src, dst, data)
    ensures WalkEnd(t, 0, From(w), src.index) == src.index && WalkEnd(t, 0, To(w), dst.index) == dst.index
    ensures Convertible(t) <==> forall i :: 0 <= i < |t.fields| ==> Convertible(t.fields[i])
  {
    hide FieldAt;
  }

  /** The code for a value was appended to the stream, and the data cursor is behind what it takes. */
  predicate Written(w: Way, t: CType, src: Mem, dst: Mem, data: Mem, before: seq<Inst>, code: seq<Inst>, after: Mem)
  {
    var e := Code(w, t, src, dst, data.index);
    e.Some? && code == before + e.value.code && after == Mem(data.base, e.value.data)
  }

  lemma {:induction false} Assoc(a: seq<Inst>, b: seq<Inst>, c: seq<Inst>)
    ensures a + b + c == a + (b + c)
  {
  }

  /** The data cursor in front of a pointee, below as many pushes. */
  function Room(pointee: CType, data: Mem): Mem
  {
    Mem(data.base, AlignIndex(data.index, AlignOf(pointee, X86_64)))
  }

  function Past(pointee: CType, slot: Mem): Mem
  {
    Mem(slot.base, slot.index + SizeOf(pointee, X86_64))
  }

  /** What convert_pointer writes before the code for the pointee. */
  function PointerHead(w: Way, slot: Mem, src: Mem, dst: Mem): seq<Inst>
  {
    if w.Forth? then
      [Inst.Push(R11), Lea(R11, slot), Store(Below(dst, 1), R11, 4), Inst.Push(R12), Mov(R12, Below(src, 2), 4)]
    else [Inst.Push(R12), Inst.Push(R11), Lea(R12, slot), Mov(R11, Below(dst, 2), 4)]
  }

  function PointerTail(w: Way): seq<Inst>
  {
    if w.Forth? then [Inst.Pop(R12), Inst.Pop(R11)] else [Inst.Pop(R11), Inst.Pop(R12)]
  }

  lemma {:induction false} PointerWords(m: Mem, r: Reg)
    ensures StoreInt(Forth, Pointer, m, r) == [Store(m, r, 4)]
    ensures LoadInt(Forth, Pointer, r, m) == LoadInt(Back, Pointer, r, m) == [Mov(r, m, 4)]
  {
  }

  lemma {:induction false} PointerShape(w: Way, slot: int, src: Mem, dst: Mem, body: seq<Inst>, before: seq<Inst>)
    ensures before + PointerCode(w, slot, src, dst, body) ==
            before + PointerHead(w, Mem(RSP, slot), src, dst) + body + PointerTail(w)
  {
    PointerWords(Below(dst, 1), R11);
    PointerWords(Below(dst, 2), R11);
    PointerWords(Below(src, 2), R12);
    hide StoreInt, LoadInt, Below;
  }

  lemma {:induction false} PointerFromPointee(
    w: Way, pointee: CType, src: Mem, dst: Mem, data: Mem, before: seq<Inst>, start: seq<Inst>, code: seq<Inst>, pushed: Mem,
    inner: Mem, after: Mem)
    requires data.base == RSP && inner == Below(Below(after, 1), 1)
    requires
      var slot := Room(pointee, if w.Forth? then Below(data, 1) else Below(Below(data, 1), 1));
      pushed == if w.Forth? then Below(Past(pointee, slot), 1) else Past(pointee, slot)
    requires Written(w, pointee, Mem(R12, 0), Mem(R11, 0), pushed, start, code, inner)
    ensures
      var e := Code(w, pointee, Mem(R12, 0), Mem(R11, 0), pushed.index);
      e.Some? && code == start + e.value.code &&
      forall c :: c == before + PointerCode(w, SlotIndex(pointee, data.index + 8 * PushesBefore(w)), src, dst, e.value.code) ==>
        Written(w, PointerTo(pointee), src, dst, data, before, c, after)
  {
    PointerCodeIs(w, pointee, src, dst, data.index);
    hide Code, SizeOf, AlignIndex, AlignOf, PointerCode;
  }

  lemma {:induction false} SlotIs(pointee: CType, data: Mem)
    requires data.base == RSP
    ensures Room(pointee, Below(data, 1)) == Mem(RSP, SlotIndex(pointee, data.index + 8 * PushesBefore(Forth)))
    ensures Room(pointee, Below(Below(data, 1), 1)) == Mem(RSP, SlotIndex(pointee, data.index + 8 * PushesBefore(Back)))
  {
    hide AlignIndex, AlignOf;
  }

  lemma {:induction false} Twice(m: Mem)
    ensures Below(Below(m, 1), 1) == Below(m, 2) && Below(Below(Below(m, 1), 1), 1) == Below(m, 3)
  {
  }

  lemma {:induction false} PointerWritten(
    w: Way, pointee: CType, src: Mem, dst: Mem, data: Mem, before: seq<Inst>, code: seq<Inst>, inner: Mem, after: Mem)
    requires data.base == RSP && inner == Below(Below(after, 1), 1)
    requires
      var slot := Room(pointee, if w.Forth? then Below(data, 1) else Below(Below(data, 1), 1));
      var pushed := if w.Forth? then Below(Past(pointee, slot), 1) else Past(pointee, slot);
      Written(w, pointee, Mem(R12, 0), Mem(R11, 0), pushed, before + PointerHead(w, slot, src, dst), code, inner)
    ensures Written(w, PointerTo(pointee), src, dst, data, before, code + PointerTail(w), after)
  {
    hide *;
    var slot := Room(pointee, if w.Forth? then Below(data, 1) else Below(Below(data, 1), 1));
    var pushed := if w.Forth? then Below(Past(pointee, slot), 1) else Past(pointee, slot);
    SlotIs(pointee, data);
    PointerFromPointee(w, pointee, src, dst, data, before, before + PointerHead(w, slot, src, dst), code, pushed, inner, after);
    PointerShape(w, slot.index, src, dst, Code(w, pointee, Mem(R12, 0), Mem(R11, 0), pushed.index).value.code, before);
  }

  lemma {:induction false} ArrayFromElement(
    w: Way, elem: CType, n: nat, src: Mem, dst: Mem, data: Mem, before: seq<Inst>, body: seq<Inst>, inner: Mem, after: Mem)
    requires n >= 1 && data.base == RSP && inner == Below(after, 3)
    requires Written(w, elem, Mem(RSI, 0), Mem(RDI, 0), Below(data, 3), [], body, inner)
    ensures Written(w, ConstantArray(elem, n), src, dst, data, before, before + ArrayCode(elem, n, src, dst, body), after)
  {
    var e := Code(w, elem, Mem(RSI, 0), Mem(RDI, 0), Below(data, 3).index).value;
    ArrayCodeIs(w, elem, n, src, dst, data.index);
    hide Code, ArrayCode;
    assert [] + e.code == e.code;
  }

  /** What convert_constant_array writes before its loop. */
  function ArrayHead(count: nat, src: Mem, dst: Mem): seq<Inst>
  {
    [Inst.Push(RCX), Inst.Push(RDI), Inst.Push(RSI), SetCount(count), Lea(RDI, Below(dst, 3)), Lea(RSI, Below(src, 3))]
  }

  const ARRAY_TAIL: seq<Inst> := [Inst.Pop(RSI), Inst.Pop(RDI), Inst.Pop(RCX)]

  lemma {:induction false} ArrayShape(elem: CType, n: nat, src: Mem, dst: Mem, body: seq<Inst>, before: seq<Inst>)
    ensures
      var steps := [Add(RDI, SizeOf(elem, X86_64)), Add(RSI, SizeOf(elem, I386))];
      before + ArrayCode(elem, n, src, dst, body) == before + ArrayHead(n, src, dst) + [Loop(body + steps)] + ARRAY_TAIL
  {
    hide SizeOf, Below;
  }

  lemma {:induction false} ArrayWritten(
    w: Way, elem: CType, n: nat, src: Mem, dst: Mem, data: Mem, before: seq<Inst>, body: seq<Inst>, inner: Mem, after: Mem)
    requires n >= 1 && data.base == RSP && inner == Below(after, 3)
    requires Written(w, elem, Mem(RSI, 0), Mem(RDI, 0), Below(data, 3), [], body, inner)
    ensures
      var steps := [Add(RDI, SizeOf(elem, X86_64)), Add(RSI, SizeOf(elem, I386))];
      Written(w, ConstantArray(elem, n), src, dst, data, before,
              before + ArrayHead(n, src, dst) + [Loop(body + steps)] + ARRAY_TAIL, after)
  {
    hide *;
    ArrayFromElement(w, elem, n, src, dst, data, before, body, inner, after);
    ArrayShape(elem, n, src, dst, body, before);
  }

  lemma {:induction false} FieldWritten(
    w: Way, t: CType, i: nat, src: Mem, dst: Mem, data: Mem, before: seq<Inst>, mid: Mem, code: seq<Inst>, after: Mem)
    requires t.Struct? && i < |t.fields| && FieldsCode(w, t, i, src, dst, data.index).Some?
    requires mid == Mem(data.base, FieldsCode(w, t, i, src, dst, data.index).value.data)
    requires
      var e := FieldsCode(w, t, i, src, dst, data.index).value;
      var s, d := Mem(src.base, FieldAt(t, i, From(w), src.index)), Mem(dst.base, FieldAt(t, i, To(w), dst.index));
      Written(w, t.fields[i], s, d, mid, before + e.code, code, after)
    ensures
      var e := FieldsCode(w, t, i + 1, src, dst, data.index);
      e.Some? && code == before + e.value.code && after == Mem(data.base, e.value.data)
  {
    FieldsCodeNext(w, t, i, src, dst, data.index);
    hide FieldsCode, FieldAt, Code;
    var e := FieldsCode(w, t, i, src, dst, data.index).value;
    var s, d := Mem(src.base, FieldAt(t, i, From(w), src.index)), Mem(dst.base, FieldAt(t, i, To(w), dst.index));
    Assoc(before, e.code, Code(w, t.fields[i], s, d, e.data).value.code);
  }

  lemma {:induction false} RecordWritten(w: Way, t: CType, src: Mem, dst: Mem, data: Mem, before: seq<Inst>)
    requires t.Struct? && FieldsCode(w, t, |t.fields|, src, dst, data.index).Some?
    ensures
      var e := FieldsCode(w, t, |t.fields|, src, dst, data.index).value;
      Written(w, t, src, dst, data, before, before + e.code, Mem(data.base, e.data))
  {
    FieldsCodeStart(w, t, src, dst, data.index);
    hide FieldsCode;
  }

  lemma {:induction false} WrittenIs(
    w: Way, t: CType, src: Mem, dst: Mem, data: Mem, before: seq<Inst>, code: seq<Inst>, after: Mem)
    requires Written(w, t, src, dst, data, before, code, after)
    ensures Code(w, t, src, dst, data.index).Some?
    ensures before <= code && code[|before|..] == Code(w, t, src, dst, data.index).value.code
  {
    hide Code;
  }

  lemma {:induction false} ConvertsIs(w: Way, full: bool, t: CType, src: Mem, dst: Mem, data: int, s: Cpu)
    requires Argument(s, src, dst) && Code(w, t, src, dst, data).Some?
    ensures Resolve(s, src).Some? && Resolve(s, dst).Some?
    ensures Converts(w, full, t, src, dst, data, s) <==>
            Run(Code(w, t, src, dst, data).value.code, s) ==
            Some(s.(log := s.log + Wanted(w, full, t, PlaceOf(s, src), PlaceOf(s, dst), DataOf(s, data))))
  {
    hide Run, Wanted, Code;
  }

  lemma {:induction false} RoomIs(t: CType, data: Mem)
    ensures Room(t, Below(data, 1)) == Mem(Below(data, 1).base, AlignIndex(Below(data, 1).index, AlignOf(t, X86_64)))
    ensures var m := Below(Below(data, 1), 1); Room(t, m) == Mem(m.base, AlignIndex(m.index, AlignOf(t, X86_64)))
    ensures forall m :: Past(t, m) == Mem(m.base, m.index + SizeOf(t, X86_64))
    ensures forall m: Mem :: Below(m, 1).base == m.base
  {
    hide AlignIndex, AlignOf, SizeOf;
  }

  lemma {:induction false} ForthAppended(slot: Mem, src: Mem, dst: Mem, before: seq<Inst>)
    ensures before + [Inst.Push(R11), Lea(R11, slot), Store(Below(dst, 1), R11, 4)] + [Inst.Push(R12)] +
            LoadInt(Forth, Pointer, R12, Below(Below(src, 1), 1)) == before + PointerHead(Forth, slot, src, dst)
  {
    Twice(src);
    PointerWords(Below(src, 2), R12);
    hide LoadInt, Below;
  }

  lemma {:induction false} BackAppended(slot: Mem, src: Mem, dst: Mem, before: seq<Inst>)
    ensures
      before + [Inst.Push(R12)] + [Inst.Push(R11)] + [Lea(R12, slot)] + LoadInt(Back, Pointer, R11, Below(Below(dst, 1), 1)) ==
      before + PointerHead(Back, slot, src, dst)
  {
    Twice(dst);
    PointerWords(Below(dst, 2), R11);
    hide LoadInt, Below;
  }

  lemma {:induction false} BelowBase(data: Mem)
    ensures Below(data, 3).base == data.base
  {
  }

  lemma {:induction false} ArrayConvertible(elem: CType, count: nat)
    ensures Convertible(ConstantArray(elem, count)) <==> count >= 1 && Convertible(elem)
  {
  }

  /** The stream written so far, and the cursor to the data it takes room in. */
  class Conversion {
    const way: Way
    const data: MemoryLocation
    var code: seq<Inst>

    constructor (way: Way, data: MemoryLocation)
      ensures this.way == way && this.data == data && code == []
    {
      this.way := way;
      this.data := data;
      code := [];
    }

    /** The copies of the operands that a method works with move with the data cursor. */
    method Push(r: Reg, src: Mem, dst: Mem) returns (s: Mem, d: Mem)
      modifies this, data
      ensures code == old(code) + [Inst.Push(r)] && data.Value() == Below(old(data.Value()), 1)
      ensures s == Below(src, 1) && d == Below(dst, 1)
    {
      s, d := Below(src, 1), Below(dst, 1);
      data.Push();
      code := code + [Inst.Push(r)];
    }

    method Pop(r: Reg)
      modifies this, data
      ensures code == old(code) + [Inst.Pop(r)] && Below(data.Value(), 1) == old(data.Value())
    {
      data.Pop();
      code := code + [Inst.Pop(r)];
    }

    /** Between two memory operands, through `rax`. */
    method ConvertInt(k: Kind, src: Mem, dst: Mem)
      modifies this, data
      ensures code == old(code) + IntCode(way, k, src, dst) && data.Value() == old(data.Value())
    {
      hide LoadInt, StoreInt;
      var tmpSrc, tmpDst := src, dst;
      tmpSrc, tmpDst := Push(RAX, tmpSrc, tmpDst);
      code := code + LoadInt(way, k, RAX, tmpSrc);
      code := code + StoreInt(way, k, tmpDst, RAX);
      Pop(RAX);
    }

    /** The copies are moved below the push, but the operands are used. */
    method ConvertReal(k: Kind, src: Mem, dst: Mem) returns (ok: bool)
      modifies this, data
      ensures ok <==> !k.LongDouble?
      ensures ok ==> code == old(code) + RealCode(k, src, dst) && data.Value() == old(data.Value())
    {
      var tmpSrc, tmpDst := src, dst;
      tmpSrc, tmpDst := Push(XMM0, tmpSrc, tmpDst);
      if k.LongDouble? {
        return false;
      }
      var width := ScalarSize(k, X86_64);
      code := code + [Mov(XMM0, src, width)];
      code := code + [Store(dst, XMM0, width)];
      Pop(XMM0);
      return true;
    }

    /** A new pointer to room on the stack. */
    method NewPointer(pointee: CType, src: Mem, dst: Mem) returns (s: Mem)
      requires way.Forth?
      modifies this, data
      ensures
        var slot := Room(pointee, Below(old(data.Value()), 1));
        && code == old(code) + [Inst.Push(R11), Lea(R11, slot), Store(Below(dst, 1), R11, 4)]
        && data.Value() == Past(pointee, slot) && s == Below(src, 1)
    {
      hide *;
      ghost var before, start := code, data.Value();
      var tmpSrc, tmpDst := Push(R11, src, dst);
      data.Align(pointee, X86_64);
      code := code + [Lea(R11, data.Value())];
      data.Add(SizeOf(pointee, X86_64));
      code := code + StoreInt(way, Pointer, tmpDst, R11);
      s := tmpSrc;
      RoomIs(pointee, start);
      PointerWords(Below(dst, 1), R11);
      assert code == before + [Inst.Push(R11), Lea(R11, Room(pointee, Below(start, 1))), Store(Below(dst, 1), R11, 4)];
    }

    /** On the way to x86_64: a new pointer, and the old one loaded. */
    method EnterForth(pointee: CType, src: Mem, dst: Mem)
      requires way.Forth?
      modifies this, data
      ensures code == old(code) + PointerHead(Forth, Room(pointee, Below(old(data.Value()), 1)), src, dst)
      ensures data.Value() == Below(Past(pointee, Room(pointee, Below(old(data.Value()), 1))), 1)
    {
      hide *;
      ghost var before, start := code, data.Value();
      var tmpSrc := NewPointer(pointee, src, dst);
      ghost var tmpDst;
      tmpSrc, tmpDst := Push(R12, tmpSrc, dst);
      code := code + LoadInt(way, Pointer, R12, tmpSrc);
      ForthAppended(Room(pointee, Below(start, 1)), src, dst, before);
    }

    /** On the way back: the copy of the pointee, and the pointer in `dst`, which is left alone. */
    method EnterBack(pointee: CType, src: Mem, dst: Mem)
      requires way.Back?
      modifies this, data
      ensures code == old(code) + PointerHead(Back, Room(pointee, Below(Below(old(data.Value()), 1), 1)), src, dst)
      ensures data.Value() == Past(pointee, Room(pointee, Below(Below(old(data.Value()), 1), 1)))
    {
      hide *;
      ghost var before, start := code, data.Value();
      var tmpSrc, tmpDst := Push(R12, src, dst);
      tmpSrc, tmpDst := Push(R11, tmpSrc, tmpDst);
      data.Align(pointee, X86_64);
      code := code + [Lea(R12, data.Value())];
      data.Add(SizeOf(pointee, X86_64));
      code := code + LoadInt(way, Pointer, R11, tmpDst);
      RoomIs(pointee, start);
      BackAppended(Room(pointee, Below(Below(start, 1), 1)), src, dst, before);
    }

    method LeavePointee()
      modifies this, data
      ensures code == old(code) + PointerTail(way)
      ensures old(data.Value()) == Below(Below(data.Value(), 1), 1)
    {
      hide Below;
      ghost var before := code;
      if way.Forth? {
        Pop(R12);
        Pop(R11);
        assert code == before + [Inst.Pop(R12), Inst.Pop(R11)];
      } else {
        Pop(R11);
        Pop(R12);
        assert code == before + [Inst.Pop(R11), Inst.Pop(R12)];
      }
    }

    method ConvertPointer(pointee: CType, src: Mem, dst: Mem) returns (ok: bool)
      requires data.Value().base == RSP
      modifies this, data
      ensures ok <==> Convertible(pointee)
      ensures ok ==> Written(way, PointerTo(pointee), src, dst, old(data.Value()), old(code), code, data.Value())
      decreases pointee, 2
    {
      hide *;
      ghost var before, start := code, data.Value();
      RoomIs(pointee, start);
      if way.Forth? {
        EnterForth(pointee, src, dst);
      } else {
        EnterBack(pointee, src, dst);
      }
      ok := Convert(pointee, Mem(R12, 0), Mem(R11, 0));
      if ok {
        ghost var body, inner := code, data.Value();
        LeavePointee();
        PointerWritten(way, pointee, src, dst, start, before, body, inner, data.Value());
      }
    }

    method EnterArray(count: nat, src: Mem, dst: Mem)
      modifies this, data
      ensures code == old(code) + ArrayHead(count, src, dst) && data.Value() == Below(old(data.Value()), 3)
    {
      hide Below;
      ghost var before, start := code, data.Value();
      var tmpSrc, tmpDst := Push(RCX, src, dst);
      tmpSrc, tmpDst := Push(RDI, tmpSrc, tmpDst);
      tmpSrc, tmpDst := Push(RSI, tmpSrc, tmpDst);
      assert code == before + [Inst.Push(RCX), Inst.Push(RDI), Inst.Push(RSI)];
      Twice(src);
      Twice(dst);
      Twice(start);
      code := code + [SetCount(count), Lea(RDI, tmpDst), Lea(RSI, tmpSrc)];
    }

    method LeaveArray()
      modifies this, data
      ensures code == old(code) + ARRAY_TAIL && old(data.Value()) == Below(data.Value(), 3)
    {
      hide Below;
      ghost var before := code;
      Pop(RSI);
      Pop(RDI);
      Pop(RCX);
      Twice(data.Value());
      assert code == before + [Inst.Pop(RSI), Inst.Pop(RDI), Inst.Pop(RCX)];
    }

    /** The steps of the loop are fixed, and the code of the element is written once. */
    method ConvertConstantArray(elem: CType, count: nat, src: Mem, dst: Mem) returns (ok: bool)
      requires data.Value().base == RSP
      modifies this, data
      ensures ok <==> Convertible(ConstantArray(elem, count))
      ensures ok ==>
        Written(way, ConstantArray(elem, count), src, dst, old(data.Value()), old(code), code, data.Value())
      decreases elem, 2
    {
      hide *;
      ArrayConvertible(elem, count);
      if count == 0 {
        return false;
      }
      ghost var before, start := code, data.Value();
      EnterArray(count, src, dst);
      BelowBase(start);
      var outer := code;
      code := [];
      ok := Convert(elem, Mem(RSI, 0), Mem(RDI, 0));
      if ok {
        ghost var body, inner := code, data.Value();
        code := code + [Add(RDI, SizeOf(elem, X86_64)), Add(RSI, SizeOf(elem, I386))];
        code := outer + [Loop(code)];
        LeaveArray();
        ArrayWritten(way, elem, count, src, dst, start, before, body, inner, data.Value());
      }
    }

    /** Align both cursors, convert the field, move both past it. */
    method ConvertRecord(t: CType, src: Mem, dst: Mem) returns (ok: bool)
      requires t.Struct? && data.Value().base == RSP
      modifies this, data
      ensures ok <==> Convertible(t)
      ensures ok ==> Written(way, t, src, dst, old(data.Value()), old(code), code, data.Value())
      decreases t, 0
    {
      hide *;
      ghost var before, start := code, data.Value();
      var s := new MemoryLocation(src);
      var d := new MemoryLocation(dst);
      FieldsCodeStart(way, t, src, dst, start.index);
      assert before + [] == before;
      for i := 0 to |t.fields|
        invariant fresh(s) && fresh(d) && s != d
        invariant s.Value() == Mem(src.base, WalkEnd(t, i, From(way), src.index))
        invariant d.Value() == Mem(dst.base, WalkEnd(t, i, To(way), dst.index))
        invariant forall j :: 0 <= j < i ==> Convertible(t.fields[j])
        invariant FieldsCode(way, t, i, src, dst, start.index).Some?
        invariant code == before + FieldsCode(way, t, i, src, dst, start.index).value.code
        invariant data.Value() == Mem(start.base, FieldsCode(way, t, i, src, dst, start.index).value.data)
      {
        var f := t.fields[i];
        s.AlignField(f, From(way));
        d.AlignField(f, To(way));
        WalkNext(t, i, From(way), src.index);
        WalkNext(t, i, To(way), dst.index);
        ghost var mid := data.Value();
        ok := Convert(f, s.Value(), d.Value());
        if !ok {
          return;
        }
        FieldWritten(way, t, i, src, dst, start, before, mid, code, data.Value());
        s.Add(SizeOf(f, From(way)));
        d.Add(SizeOf(f, To(way)));
      }
      ok := true;
      RecordWritten(way, t, src, dst, start, before);
    }

    method Convert(t: CType, src: Mem, dst: Mem) returns (ok: bool)
      requires data.Value().base == RSP
      modifies this, data
      ensures ok <==> Convertible(t)
      ensures ok ==> Written(way, t, src, dst, old(data.Value()), old(code), code, data.Value())
      decreases t, 1
    {
      hide IntCode, RealCode, ArrayCode, PointerCode, FieldsCode, SlotIndex, SizeOf, PushesBefore;
      match t {
        case Scalar(k) =>
          ok := true;
          if Real(k) {
            ok := ConvertReal(k, src, dst);
          } else if Converted(k) {
            ConvertInt(k, src, dst);
          }
        case PointerTo(pointee) =>
          ok := ConvertPointer(pointee, src, dst);
        case ConstantArray(elem, count) =>
          ok := ConvertConstantArray(elem, count, src, dst);
        case Struct(_, _) =>
          ok := ConvertRecord(t, src, dst);
      }
    }

    /**
     An argument of a call: the code written for it does what is wanted, whatever state it starts in, exactly when
     nothing was thrown and the type is sound.
     */
    method ConvertArgument(t: CType, src: Mem, dst: Mem) returns (ok: bool)
      requires data.Value().base == RSP && Plain(t)
      modifies this, data
      ensures ok <==> Convertible(t)
      ensures ok ==> old(code) <= code
      ensures ok ==> forall full, s: Cpu | Argument(s, src, dst) ::
        Run(code[|old(code)|..], s) ==
        Some(s.(log := s.log + Wanted(way, full, t, PlaceOf(s, src), PlaceOf(s, dst), DataOf(s, old(data.Value()).index)))) <==>
        Sound(way, full, t, src.base, dst.base)
    {
      hide *;
      ghost var before, start := code, data.Value();
      ok := Convert(t, src, dst);
      if ok {
        WrittenIs(way, t, src, dst, start, before, code, data.Value());
        forall full, s: Cpu | Argument(s, src, dst)
          ensures Resolve(s, src).Some? && Resolve(s, dst).Some?
          ensures Run(code[|before|..], s) ==
                  Some(s.(log := s.log + Wanted(way, full, t, PlaceOf(s, src), PlaceOf(s, dst), DataOf(s, start.index)))) <==>
                  Sound(way, full, t, src.base, dst.base)
        {
          ConvertedIff(way, full, t, src, dst, start.index, s);
          ConvertsIs(way, full, t, src, dst, start.index, s);
        }
      }
    }
  }
}
