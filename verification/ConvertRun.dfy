/**
 What the emitted code of the ABI converter (src/abiconv/typeconv.cc) does when it runs: the writes it makes, in
 order, as a function of the type and of where the operands are. Everything else is as before.
 */
module ConvertRun {
  import opened Wrappers
  import opened Arith
  import opened RecordLayout
  import opened ConvertCode

  /** An operand and the address it has. */
  datatype Place = Place(base: Reg, index: int, at: Addr)

  function Elsewhere(p: Place, index: int): Place
  {
    Place(p.base, index, Plus(p.at, index - p.index))
  }

  // ----- what is written -----

  function IntMove(w: Way, k: Kind, src: Addr, dst: Addr): Move
  {
    var from, to := ScalarSize(k, From(w)), ScalarSize(k, To(w));
    if from < to then
      (if Signed(k) then Move(Bits(src, from, to, Sign), dst, to) else Move(Bits(src, from, from, Zero), dst, from))
    else Move(Bits(src, to, to, Zero), dst, to)
  }

  /** After the push of `xmm0` an operand relative to `rsp` is eight bytes lower than meant. */
  function Unadjusted(p: Place): Addr
  {
    if p.base.RSP? then Plus(p.at, -8) else p.at
  }

  function ScalarMoves(w: Way, k: Kind, src: Place, dst: Place): seq<Move>
  {
    if !Converted(k) then []
    else if Real(k) then
      var width := ScalarSize(k, X86_64);
      [Move(Bits(Unadjusted(src), width, width, Zero), Unadjusted(dst), width)]
    else [IntMove(w, k, src.at, dst.at)]
  }

  /** Where the x86_64 copy of a pointee is put. */
  function Slot(pointee: CType, data: Place): Place
  {
    Elsewhere(data, SlotIndex(pointee, data.index))
  }

  function PointeeSrc(w: Way, src: Place, slot: Place): Place
  {
    Place(R12, 0, if w.Forth? then Addr(Held(src.at), 0) else slot.at)
  }

  function PointeeDst(w: Way, dst: Place, slot: Place): Place
  {
    Place(R11, 0, if w.Forth? then slot.at else Addr(Held(dst.at), 0))
  }

  function Behind(pointee: CType, slot: Place): Place
  {
    Elsewhere(slot, slot.index + SizeOf(pointee, X86_64))
  }

  /**
   The new pointer: four bytes of it, and only on the way to x86_64. `r11` is already the address of the new data
   when it is written, so an operand relative to `r11` is no longer the one that was meant.
   */
  function PointerMoves(w: Way, dst: Place, slot: Place): seq<Move>
  {
    if w.Forth? then [Move(Address(slot.at), if dst.base.R11? then Plus(slot.at, dst.index) else dst.at, 4)] else []
  }

  /** Element `i` of the one array, and the one the registers point to for it. */
  function Element(r: Reg, at: Addr, i: nat, size: nat): Place
  {
    Place(r, 0, Plus(at, i * size))
  }

  /** The data cursor behind a value; `each` tells whether every element of an array takes room of its own. */
  function After(each: bool, t: CType, data: int): int
    decreases t, 1, 0
  {
    match t
    case Scalar(_) => data
    case PointerTo(pointee) => After(each, pointee, SlotIndex(pointee, data) + SizeOf(pointee, X86_64))
    case ConstantArray(elem, count) => if each then AfterElements(elem, count, data) else After(false, elem, data)
    case Struct(fields, _) => AfterFields(each, t, |fields|, data)
  }

  function AfterElements(elem: CType, n: nat, data: int): int
    decreases elem, 2, n
  {
    if n == 0 then data else After(true, elem, AfterElements(elem, n - 1, data))
  }

  function AfterFields(each: bool, t: CType, n: nat, data: int): int
    requires t.Struct? && n <= |t.fields|
    decreases t, 0, n
  {
    if n == 0 then data else After(each, t.fields[n - 1], AfterFields(each, t, n - 1, data))
  }

  /** The writes of the emitted code. */
  function Moved(w: Way, t: CType, src: Place, dst: Place, data: Place): seq<Move>
    decreases t, 1, 0
  {
    match t
    case Scalar(k) => ScalarMoves(w, k, src, dst)
    case PointerTo(pointee) =>
      var slot := Slot(pointee, data);
      PointerMoves(w, dst, slot) +
      Moved(w, pointee, PointeeSrc(w, src, slot), PointeeDst(w, dst, slot), Behind(pointee, slot))
    case ConstantArray(elem, count) => ElementsMoved(w, elem, count, src, dst, data)
    case Struct(fields, _) => FieldsMoved(w, t, |fields|, src, dst, data)
  }

  /** The loop steps by the i386 size here and the x86_64 size there, and finds the data cursor as it was. */
  function ElementsMoved(w: Way, elem: CType, n: nat, src: Place, dst: Place, data: Place): seq<Move>
    decreases elem, 2, n
  {
    if n == 0 then []
    else
      ElementsMoved(w, elem, n - 1, src, dst, data) +
      Moved(w, elem, Element(RSI, src.at, n - 1, SizeOf(elem, I386)), Element(RDI, dst.at, n - 1, SizeOf(elem, X86_64)), data)
  }

  function Field(t: CType, i: nat, a: Arch, p: Place): Place
    requires t.Struct? && i < |t.fields|
  {
    Elsewhere(p, FieldAt(t, i, a, p.index))
  }

  function FieldData(each: bool, t: CType, i: nat, data: Place): Place
    requires t.Struct? && i <= |t.fields|
  {
    Elsewhere(data, AfterFields(each, t, i, data.index))
  }

  function FieldsMoved(w: Way, t: CType, n: nat, src: Place, dst: Place, data: Place): seq<Move>
    requires t.Struct? && n <= |t.fields|
    decreases t, 0, n
  {
    if n == 0 then []
    else
      FieldsMoved(w, t, n - 1, src, dst, data) +
      Moved(w, t.fields[n - 1], Field(t, n - 1, From(w), src), Field(t, n - 1, To(w), dst), FieldData(false, t, n - 1, data))
  }

  // ----- pushes do not change where things are -----

  lemma {:induction false} AlignIndexMoves(n: int, k: int, align: nat)
    requires align in {1, 2, 4, 8} && k % 8 == 0
    ensures AlignIndex(n + k, align) == AlignIndex(n, align) + k
  {
    var x, y := AlignIndex(n + k, align), AlignIndex(n, align);
    AlignIndexIsLeast(n + k, align);
    AlignIndexIsLeast(n, align);
    hide *;
    Divides(align, 8, k);
    NegMultiple(k, align);
    ModOffset(k, y, align);
    ModOffset(-k, x, align);
    assert x <= y + k && y <= x - k;
  }

  lemma {:induction false} SmallAlign(t: CType, a: Arch)
    requires Convertible(t)
    ensures AlignOf(t, a) <= 8
    decreases t, 1, 0
  {
    match t
    case Scalar(_) =>
    case PointerTo(_) =>
    case ConstantArray(elem, _) => SmallAlign(elem, a);
    case Struct(fields, packed) => SmallFieldsAlign(t, |fields|, a);
  }

  lemma {:induction false} SmallFieldsAlign(t: CType, n: nat, a: Arch)
    requires t.Struct? && Convertible(t) && n <= |t.fields|
    ensures FieldsAlign(t, n, a) <= 8
    decreases t, 0, n
  {
    if n == 0 {
    } else {
      SmallFieldsAlign(t, n - 1, a);
      SmallAlign(t.fields[n - 1], a);
      hide AlignOf, Convertible;
    }
  }

  lemma {:induction false} ConvertibleField(t: CType, i: nat)
    requires t.Struct? && Convertible(t) && i < |t.fields|
    ensures Convertible(t.fields[i])
  {
  }

  lemma {:induction false} WalkShift(t: CType, n: nat, a: Arch, start: int, k: int)
    requires t.Struct? && Convertible(t) && n <= |t.fields| && k % 8 == 0
    ensures WalkEnd(t, n, a, start + k) == WalkEnd(t, n, a, start) + k
    ensures n < |t.fields| ==> FieldAt(t, n, a, start + k) == FieldAt(t, n, a, start) + k
    decreases n
  {
    hide AlignOf, SizeOf, AlignIndex, Convertible;
    if n == 0 {
    } else {
      WalkShift(t, n - 1, a, start, k);
    }
    if n < |t.fields| {
      ConvertibleField(t, n);
      SmallAlign(t.fields[n], a);
      AlignIndexMoves(WalkEnd(t, n, a, start), k, FieldAlign(t.fields[n], a));
    }
  }

  lemma {:induction false} AfterShift(each: bool, t: CType, data: int, k: int)
    requires Convertible(t) && k % 8 == 0
    ensures After(each, t, data + k) == After(each, t, data) + k
    decreases t, 1, 0
  {
    match t
    case Scalar(_) =>
    case PointerTo(pointee) =>
      SmallAlign(pointee, X86_64);
      hide AlignOf, SizeOf, AlignIndex, Convertible;
      AlignIndexMoves(data, k, AlignOf(pointee, X86_64));
      AfterShift(each, pointee, SlotIndex(pointee, data) + SizeOf(pointee, X86_64), k);
    case ConstantArray(elem, count) =>
      if each {
        AfterElementsShift(elem, count, data, k);
      } else {
        AfterShift(false, elem, data, k);
      }
    case Struct(fields, _) => AfterFieldsShift(each, t, |fields|, data, k);
  }

  lemma {:induction false} AfterElementsShift(elem: CType, n: nat, data: int, k: int)
    requires Convertible(elem) && k % 8 == 0
    ensures AfterElements(elem, n, data + k) == AfterElements(elem, n, data) + k
    decreases elem, 2, n
  {
    if n == 0 {
    } else {
      AfterElementsShift(elem, n - 1, data, k);
      AfterShift(true, elem, AfterElements(elem, n - 1, data), k);
      hide After, Convertible;
    }
  }

  lemma {:induction false} AfterFieldsShift(each: bool, t: CType, n: nat, data: int, k: int)
    requires t.Struct? && Convertible(t) && n <= |t.fields| && k % 8 == 0
    ensures AfterFields(each, t, n, data + k) == AfterFields(each, t, n, data) + k
    decreases t, 0, n
  {
    if n == 0 {
    } else {
      AfterFieldsShift(each, t, n - 1, data, k);
      AfterShift(each, t.fields[n - 1], AfterFields(each, t, n - 1, data), k);
      hide After, Convertible;
    }
  }

  /** The same operand, perhaps below some pushes. */
  predicate Same(p: Place, q: Place)
  {
    p == q || (p.base.RSP? && q.base.RSP? && p.at == q.at && (q.index - p.index) % 8 == 0)
  }

  lemma {:induction false} SameFields(t: CType, i: nat, a: Arch, p: Place, q: Place)
    requires t.Struct? && Convertible(t) && i < |t.fields| && Same(p, q)
    ensures Same(Field(t, i, a, p), Field(t, i, a, q))
  {
    hide FieldAt, Convertible;
    if p != q {
      WalkShift(t, i, a, p.index, q.index - p.index);
    }
  }

  lemma {:induction false} SameData(each: bool, t: CType, i: nat, p: Place, q: Place)
    requires t.Struct? && Convertible(t) && i <= |t.fields| && Same(p, q)
    ensures Same(FieldData(each, t, i, p), FieldData(each, t, i, q))
  {
    hide AfterFields, Convertible;
    if p != q {
      AfterFieldsShift(each, t, i, p.index, q.index - p.index);
    }
  }

  lemma {:induction false} SameSlot(pointee: CType, p: Place, q: Place)
    requires Convertible(pointee) && Same(p, q)
    ensures Same(Slot(pointee, p), Slot(pointee, q)) && Slot(pointee, p).at == Slot(pointee, q).at
    ensures Same(Behind(pointee, Slot(pointee, p)), Behind(pointee, Slot(pointee, q)))
  {
    hide AlignOf, SizeOf, AlignIndex, Convertible;
    if p != q {
      SmallAlign(pointee, X86_64);
      AlignIndexMoves(p.index, q.index - p.index, AlignOf(pointee, X86_64));
    }
  }

  lemma {:induction false} SameMoves(w: Way, t: CType, src: Place, src': Place, dst: Place, dst': Place, data: Place, data': Place)
    requires Convertible(t) && Same(src, src') && Same(dst, dst') && Same(data, data')
    ensures Moved(w, t, src, dst, data) == Moved(w, t, src', dst', data')
    decreases t, 1, 0
  {
    match t
    case Scalar(_) =>
    case PointerTo(pointee) =>
      var slot, slot' := Slot(pointee, data), Slot(pointee, data');
      SameSlot(pointee, data, data');
      SameMoves(w, pointee, PointeeSrc(w, src, slot), PointeeSrc(w, src', slot'), PointeeDst(w, dst, slot),
                PointeeDst(w, dst', slot'), Behind(pointee, slot), Behind(pointee, slot'));
      hide Slot, Behind, Convertible;
    case ConstantArray(elem, count) => SameElements(w, elem, count, src, src', dst, dst', data, data');
    case Struct(fields, _) => SameFieldsMoved(w, t, |fields|, src, src', dst, dst', data, data');
  }

  lemma {:induction false} SameElements(
    w: Way, elem: CType, n: nat, src: Place, src': Place, dst: Place, dst': Place, data: Place, data': Place)
    requires Convertible(elem) && Same(src, src') && Same(dst, dst') && Same(data, data')
    ensures ElementsMoved(w, elem, n, src, dst, data) == ElementsMoved(w, elem, n, src', dst', data')
    decreases elem, 2, n
  {
    if n == 0 {
    } else {
      var s, d := Element(RSI, src.at, n - 1, SizeOf(elem, I386)), Element(RDI, dst.at, n - 1, SizeOf(elem, X86_64));
      SameElements(w, elem, n - 1, src, src', dst, dst', data, data');
      SameMoves(w, elem, s, s, d, d, data, data');
      hide Moved, SizeOf, Convertible;
    }
  }

  lemma {:induction false} NextFieldMoved(w: Way, t: CType, n: nat, src: Place, dst: Place, data: Place)
    requires t.Struct? && n <= |t.fields|
    ensures n == 0 ==> FieldsMoved(w, t, n, src, dst, data) == []
    ensures n > 0 ==>
      FieldsMoved(w, t, n, src, dst, data) ==
      FieldsMoved(w, t, n - 1, src, dst, data) +
      Moved(w, t.fields[n - 1], Field(t, n - 1, From(w), src), Field(t, n - 1, To(w), dst), FieldData(false, t, n - 1, data))
  {
    hide Moved, Field, FieldData;
  }

  lemma {:induction false} SameFieldsMoved(
    w: Way, t: CType, n: nat, src: Place, src': Place, dst: Place, dst': Place, data: Place, data': Place)
    requires t.Struct? && Convertible(t) && n <= |t.fields| && Same(src, src') && Same(dst, dst') && Same(data, data')
    ensures FieldsMoved(w, t, n, src, dst, data) == FieldsMoved(w, t, n, src', dst', data')
    decreases t, 0, n
  {
    hide *;
    NextFieldMoved(w, t, n, src, dst, data);
    NextFieldMoved(w, t, n, src', dst', data');
    if n == 0 {
    } else {
      SameFieldsMoved(w, t, n - 1, src, src', dst, dst', data, data');
      SameFields(t, n - 1, From(w), src, src');
      SameFields(t, n - 1, To(w), dst, dst');
      SameData(false, t, n - 1, data, data');
      ConvertibleField(t, n - 1);
      SameMoves(w, t.fields[n - 1], Field(t, n - 1, From(w), src), Field(t, n - 1, From(w), src'),
                Field(t, n - 1, To(w), dst), Field(t, n - 1, To(w), dst'),
                FieldData(false, t, n - 1, data), FieldData(false, t, n - 1, data'));
    }
  }

  // ----- runs -----

  function Then(r: Option<Cpu>, code: seq<Inst>): Option<Cpu>
  {
    if r.None? then None else Run(code, r.value)
  }

  lemma {:induction false} RunAppend(a: seq<Inst>, b: seq<Inst>, s: Cpu)
    ensures Run(a + b, s) == Then(Run(a, s), b)
    decreases a
  {
    hide Exec;
    if a == [] {
      assert [] + b == b;
    } else {
      assert (a + b)[1..] == a[1..] + b;
      var next := Exec(a[0], s);
      if next.Some? {
        RunAppend(a[1..], b, next.value);
      }
    }
  }

  lemma {:induction false} RunOne(i: Inst, s: Cpu)
    ensures Run([i], s) == Exec(i, s)
  {
    hide Exec;
    assert [i][1..] == [];
  }

  lemma {:induction false} RunNext(i: Inst, rest: seq<Inst>, s: Cpu)
    ensures Run([i] + rest, s) == Then(Exec(i, s), rest)
  {
    hide *;
    RunOne(i, s);
    RunAppend([i], rest, s);
  }

  function Pushed(r: Reg, s: Cpu): Cpu
  {
    s.(stack := [Get(s, r)] + s.stack, rsp := Plus(s.rsp, -8))
  }

  /** Code between a push and its pop, if it leaves the stack alone. */
  lemma {:induction false} SavedRuns(r: Reg, body: seq<Inst>, s: Cpu, q: Cpu)
    requires Run(body, Pushed(r, s)) == Some(q) && q.stack == Pushed(r, s).stack && q.rsp == Pushed(r, s).rsp
    ensures Run(Saved(r, body), s) == Some(Set(q.(stack := s.stack, rsp := s.rsp), r, Get(s, r)))
  {
    var p := Pushed(r, s);
    assert Exec(Push(r), s) == Some(p);
    assert q.stack[1..] == s.stack && q.stack[0] == Get(s, r);
    assert Exec(Pop(r), q) == Some(Set(q.(stack := s.stack, rsp := s.rsp), r, Get(s, r)));
    hide Exec, Set, Get, Run, Pushed;
    RunNext(Push(r), body, s);
    RunAppend([Push(r)] + body, [Pop(r)], s);
    RunOne(Pop(r), q);
  }

  /** Operands as the converter forms them: none relative to a register that is loaded before they are used. */
  predicate Ready(s: Cpu, src: Mem, dst: Mem)
  {
    && src.base in {RSP, RBP, RSI, R12} && dst.base in {RSP, RBP, RDI, R11}
    && Resolve(s, src).Some? && Resolve(s, dst).Some?
  }

  function PlaceOf(s: Cpu, m: Mem): Place
    requires Resolve(s, m).Some?
  {
    Place(m.base, m.index, Resolve(s, m).value)
  }

  function DataOf(s: Cpu, data: int): Place
  {
    Place(RSP, data, Plus(s.rsp, data))
  }

  lemma {:induction false} MovStore(r: Reg, src: Mem, dst: Mem, width: nat, s: Cpu)
    requires r in {RAX, XMM0} && Ready(s, src, dst)
    ensures Run([Mov(r, src, width), Store(dst, r, width)], s) ==
            Some(Set(s, r, Loaded(Resolve(s, src).value, r, width)).(
                 log := s.log + [Move(Bits(Resolve(s, src).value, width, width, Zero), Resolve(s, dst).value, width)]))
  {
    var q := Set(s, r, Loaded(Resolve(s, src).value, r, width));
    assert Exec(Mov(r, src, width), s) == Some(q);
    assert Exec(Store(dst, r, width), q) ==
           Some(q.(log := s.log + [Move(Bits(Resolve(s, src).value, width, width, Zero), Resolve(s, dst).value, width)]));
    hide Exec, Run;
    assert [Mov(r, src, width), Store(dst, r, width)] == [Mov(r, src, width)] + [Store(dst, r, width)];
    RunNext(Mov(r, src, width), [Store(dst, r, width)], s);
    RunOne(Store(dst, r, width), q);
  }

  lemma {:induction false} MovsxStore(src: Mem, dst: Mem, width: nat, wide: nat, s: Cpu)
    requires width < wide && Ready(s, src, dst)
    ensures var v := Bits(Resolve(s, src).value, width, wide, Sign);
      Run([Movsx(RAX, src, width, wide)] + [Extend(RAX, width, wide), Store(dst, RAX, wide)], s) ==
      Some(s.(rax := v, log := s.log + [Move(v, Resolve(s, dst).value, wide)]))
  {
    var v := Bits(Resolve(s, src).value, width, wide, Sign);
    var q := s.(rax := v);
    assert Exec(Movsx(RAX, src, width, wide), s) == Some(q);
    assert Exec(Extend(RAX, width, wide), q) == Some(q);
    assert Exec(Store(dst, RAX, wide), q) == Some(q.(log := s.log + [Move(v, Resolve(s, dst).value, wide)]));
    hide Exec, Run;
    assert [Extend(RAX, width, wide), Store(dst, RAX, wide)] == [Extend(RAX, width, wide)] + [Store(dst, RAX, wide)];
    RunNext(Movsx(RAX, src, width, wide), [Extend(RAX, width, wide), Store(dst, RAX, wide)], s);
    RunNext(Extend(RAX, width, wide), [Store(dst, RAX, wide)], q);
    RunOne(Store(dst, RAX, wide), q);
  }

  lemma {:induction false} PushedOperands(r: Reg, src: Mem, dst: Mem, s: Cpu)
    requires Ready(s, src, dst)
    ensures Ready(Pushed(r, s), Below(src, 1), Below(dst, 1))
    ensures Resolve(Pushed(r, s), Below(src, 1)) == Resolve(s, src)
    ensures Resolve(Pushed(r, s), Below(dst, 1)) == Resolve(s, dst)
  {
  }

  lemma {:induction false} IntRuns(w: Way, k: Kind, src: Mem, dst: Mem, s: Cpu)
    requires Ready(s, src, dst)
    ensures Run(IntCode(w, k, src, dst), s) ==
            Some(s.(log := s.log + [IntMove(w, k, Resolve(s, src).value, Resolve(s, dst).value)]))
  {
    var from, to := ScalarSize(k, From(w)), ScalarSize(k, To(w));
    var p, a, b := Pushed(RAX, s), Below(src, 1), Below(dst, 1);
    PushedOperands(RAX, src, dst, s);
    hide Run, Exec, Resolve, Ready, ScalarSize;
    if from < to && Signed(k) {
      MovsxStore(a, b, from, to, p);
      var v := Bits(Resolve(s, src).value, from, to, Sign);
      SavedRuns(RAX, [Movsx(RAX, a, from, to)] + [Extend(RAX, from, to), Store(b, RAX, to)], s,
                p.(rax := v, log := s.log + [Move(v, Resolve(s, dst).value, to)]));
    } else {
      var n := if from < to then from else to;
      MovStore(RAX, a, b, n, p);
      assert [Mov(RAX, a, n)] + [Store(b, RAX, n)] == [Mov(RAX, a, n), Store(b, RAX, n)];
      var x, y := Resolve(s, src).value, Resolve(s, dst).value;
      SavedRuns(RAX, [Mov(RAX, a, n), Store(b, RAX, n)], s,
                Set(p, RAX, Loaded(x, RAX, n)).(log := s.log + [Move(Bits(x, n, n, Zero), y, n)]));
    }
  }

  lemma {:induction false} UnadjustedOperands(r: Reg, src: Mem, dst: Mem, s: Cpu)
    requires Ready(s, src, dst)
    ensures Ready(Pushed(r, s), src, dst)
    ensures Resolve(Pushed(r, s), src) == Some(Unadjusted(PlaceOf(s, src)))
    ensures Resolve(Pushed(r, s), dst) == Some(Unadjusted(PlaceOf(s, dst)))
  {
  }

  lemma {:induction false} RealRuns(w: Way, k: Kind, src: Mem, dst: Mem, s: Cpu)
    requires Ready(s, src, dst) && Real(k)
    ensures Run(RealCode(k, src, dst), s) == Some(s.(log := s.log + ScalarMoves(w, k, PlaceOf(s, src), PlaceOf(s, dst))))
  {
    var n, p := ScalarSize(k, X86_64), Pushed(XMM0, s);
    UnadjustedOperands(XMM0, src, dst, s);
    hide Run, Exec, Resolve, Ready, ScalarSize, Unadjusted;
    MovStore(XMM0, src, dst, n, p);
    var x, y := Unadjusted(PlaceOf(s, src)), Unadjusted(PlaceOf(s, dst));
    SavedRuns(XMM0, [Mov(XMM0, src, n), Store(dst, XMM0, n)], s,
              Set(p, XMM0, Loaded(x, XMM0, n)).(log := s.log + [Move(Bits(x, n, n, Zero), y, n)]));
  }

  // ----- pointers -----

  /** The processor when the code for a pointee starts. */
  function AtPointee(w: Way, slot: Place, src: Addr, dst: Place, s: Cpu): Cpu
  {
    if w.Forth? then
      Pushed(R12, Pushed(R11, s).(r11 := Address(slot.at), log := s.log + PointerMoves(w, dst, slot))).(
      r12 := Bits(src, 4, 8, Zero))
    else Pushed(R11, Pushed(R12, s)).(r12 := Address(slot.at), r11 := Bits(dst.at, 4, 8, Zero))
  }

  lemma {:induction false} ForthEnters(slot: int, src: Mem, dst: Mem, s: Cpu, at: Place)
    requires Ready(s, src, dst) && at.at == Plus(s.rsp, slot - 8)
    ensures var q := Pushed(R11, s).(r11 := Address(at.at), log := s.log + PointerMoves(Forth, PlaceOf(s, dst), at));
      && Run([Lea(R11, Mem(RSP, slot))] + StoreInt(Forth, Pointer, Below(dst, 1), R11), Pushed(R11, s)) == Some(q)
      && Run(LoadInt(Forth, Pointer, R12, Below(src, 2)), Pushed(R12, q)) ==
         Some(AtPointee(Forth, at, Resolve(s, src).value, PlaceOf(s, dst), s))
  {
    var p := Pushed(R11, s);
    var r := p.(r11 := Address(at.at));
    var q := r.(log := s.log + PointerMoves(Forth, PlaceOf(s, dst), at));
    var t := Pushed(R12, q);
    assert Exec(Lea(R11, Mem(RSP, slot)), p) == Some(r);
    assert Exec(Store(Below(dst, 1), R11, 4), r) == Some(q);
    assert Exec(Mov(R12, Below(src, 2), 4), t) == Some(AtPointee(Forth, at, Resolve(s, src).value, PlaceOf(s, dst), s));
    hide Exec, Run, Resolve, Ready;
    RunNext(Lea(R11, Mem(RSP, slot)), [Store(Below(dst, 1), R11, 4)], p);
    RunOne(Store(Below(dst, 1), R11, 4), r);
    RunOne(Mov(R12, Below(src, 2), 4), t);
  }

  /** On the way to x86_64: a new pointer is stored, and the pointee converted behind the old one. */
  lemma {:induction false} ForthRuns(slot: int, src: Mem, dst: Mem, body: seq<Inst>, moves: seq<Move>, s: Cpu, at: Place)
    requires Ready(s, src, dst) && at.at == Plus(s.rsp, slot - 8)
    requires var q := AtPointee(Forth, at, Resolve(s, src).value, PlaceOf(s, dst), s);
      Run(body, q) == Some(q.(log := q.log + moves))
    ensures Run(PointerCode(Forth, slot, src, dst, body), s) ==
            Some(s.(log := s.log + (PointerMoves(Forth, PlaceOf(s, dst), at) + moves)))
  {
    var a, b := [Lea(R11, Mem(RSP, slot))] + StoreInt(Forth, Pointer, Below(dst, 1), R11),
                LoadInt(Forth, Pointer, R12, Below(src, 2));
    var q := Pushed(R11, s).(r11 := Address(at.at), log := s.log + PointerMoves(Forth, PlaceOf(s, dst), at));
    var r := AtPointee(Forth, at, Resolve(s, src).value, PlaceOf(s, dst), s);
    var log := r.log + moves;
    hide Run, Exec, Resolve, Ready, StoreInt, LoadInt, PointerMoves, Below, Saved;
    ForthEnters(slot, src, dst, s, at);
    RunAppend(b, body, Pushed(R12, q));
    SavedRuns(R12, b + body, q, r.(log := log));
    RunAppend(a, Saved(R12, b + body), Pushed(R11, s));
    SavedRuns(R11, a + Saved(R12, b + body), s, q.(log := log));
    assert log == s.log + (PointerMoves(Forth, PlaceOf(s, dst), at) + moves);
  }

  lemma {:induction false} BackEnters(slot: int, src: Mem, dst: Mem, s: Cpu, at: Place)
    requires Ready(s, src, dst) && at.at == Plus(s.rsp, slot - 16)
    ensures Run([Lea(R12, Mem(RSP, slot))] + LoadInt(Back, Pointer, R11, Below(dst, 2)), Pushed(R11, Pushed(R12, s))) ==
            Some(AtPointee(Back, at, Resolve(s, src).value, PlaceOf(s, dst), s))
  {
    var p := Pushed(R11, Pushed(R12, s));
    var r := p.(r12 := Address(at.at));
    assert Exec(Lea(R12, Mem(RSP, slot)), p) == Some(r);
    assert Exec(Mov(R11, Below(dst, 2), 4), r) == Some(AtPointee(Back, at, Resolve(s, src).value, PlaceOf(s, dst), s));
    hide Exec, Run, Resolve, Ready;
    RunNext(Lea(R12, Mem(RSP, slot)), [Mov(R11, Below(dst, 2), 4)], p);
    RunOne(Mov(R11, Below(dst, 2), 4), r);
  }

  /** On the way back the pointer is left alone, and the copy of the pointee converted to where it points. */
  lemma {:induction false} BackRuns(slot: int, src: Mem, dst: Mem, body: seq<Inst>, moves: seq<Move>, s: Cpu, at: Place)
    requires Ready(s, src, dst) && at.at == Plus(s.rsp, slot - 16)
    requires var q := AtPointee(Back, at, Resolve(s, src).value, PlaceOf(s, dst), s);
      Run(body, q) == Some(q.(log := q.log + moves))
    ensures Run(PointerCode(Back, slot, src, dst, body), s) == Some(s.(log := s.log + moves))
  {
    var a := [Lea(R12, Mem(RSP, slot))] + LoadInt(Back, Pointer, R11, Below(dst, 2));
    var r := AtPointee(Back, at, Resolve(s, src).value, PlaceOf(s, dst), s);
    hide Run, Exec, Resolve, Ready, LoadInt, Below, Saved;
    BackEnters(slot, src, dst, s, at);
    RunAppend(a, body, Pushed(R11, Pushed(R12, s)));
    SavedRuns(R11, a + body, Pushed(R12, s), r.(log := s.log + moves));
    SavedRuns(R12, Saved(R11, a + body), s, Pushed(R12, s).(r12 := Address(at.at), log := s.log + moves));
  }

  // ----- arrays -----

  /** The processor in front of pass `i` of the loop. */
  function AtPass(elem: CType, i: nat, n: nat, src: Addr, dst: Addr, log: seq<Move>, s: Cpu): Cpu
    requires i <= n
  {
    Pushed(RSI, Pushed(RDI, Pushed(RCX, s))).(
      rdi := Address(Plus(dst, i * SizeOf(elem, X86_64))), rsi := Address(Plus(src, i * SizeOf(elem, I386))),
      rcx := Count(n - i), log := s.log + log)
  }

  lemma {:induction false} ArrayEnters(elem: CType, n: nat, src: Mem, dst: Mem, s: Cpu)
    requires Ready(s, src, dst)
    ensures Run([SetCount(n), Lea(RDI, Below(dst, 3)), Lea(RSI, Below(src, 3))], Pushed(RSI, Pushed(RDI, Pushed(RCX, s)))) ==
            Some(AtPass(elem, 0, n, Resolve(s, src).value, Resolve(s, dst).value, [], s))
  {
    var p := Pushed(RSI, Pushed(RDI, Pushed(RCX, s)));
    var x, y := Resolve(s, src).value, Resolve(s, dst).value;
    var q := p.(rcx := Count(n));
    var r := q.(rdi := Address(y));
    assert Exec(SetCount(n), p) == Some(q);
    assert Exec(Lea(RDI, Below(dst, 3)), q) == Some(r);
    assert Exec(Lea(RSI, Below(src, 3)), r) == Some(r.(rsi := Address(x)));
    hide Exec, Run, Resolve, Ready;
    assert s.log + [] == s.log;
    assert Plus(y, 0) == y && Plus(x, 0) == x;
    assert r.(rsi := Address(x)) == AtPass(elem, 0, n, x, y, [], s);
    RunNext(SetCount(n), [Lea(RDI, Below(dst, 3)), Lea(RSI, Below(src, 3))], p);
    RunNext(Lea(RDI, Below(dst, 3)), [Lea(RSI, Below(src, 3))], q);
    RunOne(Lea(RSI, Below(src, 3)), r);
    assert [SetCount(n), Lea(RDI, Below(dst, 3)), Lea(RSI, Below(src, 3))] ==
           [SetCount(n)] + ([Lea(RDI, Below(dst, 3))] + [Lea(RSI, Below(src, 3))]);
  }

  lemma {:induction false} StepsRun(elem: CType, i: nat, n: nat, src: Addr, dst: Addr, log: seq<Move>, s: Cpu)
    requires i < n
    ensures var q := AtPass(elem, i, n, src, dst, log, s);
      Run([Add(RDI, SizeOf(elem, X86_64)), Add(RSI, SizeOf(elem, I386))], q) ==
      Some(AtPass(elem, i + 1, n, src, dst, log, s).(rcx := q.rcx))
  {
    var x, y := SizeOf(elem, I386), SizeOf(elem, X86_64);
    var q := AtPass(elem, i, n, src, dst, log, s);
    var r := q.(rdi := Address(Plus(dst, (i + 1) * y)));
    assert (i + 1) * y == i * y + y && (i + 1) * x == i * x + x;
    hide SizeOf;
    assert Exec(Add(RDI, y), q) == Some(r);
    assert Exec(Add(RSI, x), r) == Some(r.(rsi := Address(Plus(src, (i + 1) * x))));
    hide Exec, Run;
    assert [Add(RDI, y), Add(RSI, x)] == [Add(RDI, y)] + [Add(RSI, x)];
    RunNext(Add(RDI, y), [Add(RSI, x)], q);
    RunOne(Add(RSI, x), r);
  }

  lemma {:induction false} ElementsNext(w: Way, elem: CType, n: nat, src: Place, dst: Place, data: Place)
    ensures ElementsMoved(w, elem, 0, src, dst, data) == []
    ensures ElementsMoved(w, elem, n + 1, src, dst, data) ==
            ElementsMoved(w, elem, n, src, dst, data) +
            Moved(w, elem, Element(RSI, src.at, n, SizeOf(elem, I386)), Element(RDI, dst.at, n, SizeOf(elem, X86_64)), data)
  {
    hide Moved, SizeOf;
  }

  lemma {:induction false} PassOperands(elem: CType, i: nat, n: nat, src: Addr, dst: Addr, log: seq<Move>, data: int, s: Cpu)
    requires i <= n
    ensures var q := AtPass(elem, i, n, src, dst, log, s);
      && Ready(q, Mem(RSI, 0), Mem(RDI, 0))
      && PlaceOf(q, Mem(RSI, 0)) == Element(RSI, src, i, SizeOf(elem, I386))
      && PlaceOf(q, Mem(RDI, 0)) == Element(RDI, dst, i, SizeOf(elem, X86_64))
      && Same(DataOf(q, data + 24), DataOf(s, data))
      && q.log == s.log + log && q.(log := s.log + log) == q && q.rcx == Count(n - i)
  {
    hide SizeOf;
  }

  lemma {:induction false} OnePass(body: seq<Inst>, n: nat, s: Cpu, next: Cpu)
    requires n > 0 && Run(body, s) == Some(next) && next.rcx == Count(n)
    ensures Passes(body, n, s) == Passes(body, n - 1, next.(rcx := Count(n - 1)))
  {
    hide Run;
  }

  /** What one pass does: the code of the element, with both registers where that element is, and the two steps. */
  lemma {:induction false} PassRuns(
    w: Way, elem: CType, i: nat, n: nat, src: Place, dst: Place, data: int, body: seq<Inst>, s: Cpu)
    requires i < n && Convertible(elem)
    requires
      var log := ElementsMoved(w, elem, i, src, dst, DataOf(s, data));
      var q := AtPass(elem, i, n, src.at, dst.at, log, s);
      && Ready(q, Mem(RSI, 0), Mem(RDI, 0))
      && Run(body, q) ==
         Some(q.(log := q.log + Moved(w, elem, PlaceOf(q, Mem(RSI, 0)), PlaceOf(q, Mem(RDI, 0)), DataOf(q, data + 24))))
    ensures
      var steps := [Add(RDI, SizeOf(elem, X86_64)), Add(RSI, SizeOf(elem, I386))];
      var q := AtPass(elem, i, n, src.at, dst.at, ElementsMoved(w, elem, i, src, dst, DataOf(s, data)), s);
      Run(body + steps, q) ==
      Some(AtPass(elem, i + 1, n, src.at, dst.at, ElementsMoved(w, elem, i + 1, src, dst, DataOf(s, data)), s).(rcx := q.rcx))
  {
    hide *;
    var steps := [Add(RDI, SizeOf(elem, X86_64)), Add(RSI, SizeOf(elem, I386))];
    var log, more := ElementsMoved(w, elem, i, src, dst, DataOf(s, data)), ElementsMoved(w, elem, i + 1, src, dst, DataOf(s, data));
    var q := AtPass(elem, i, n, src.at, dst.at, log, s);
    var x, y := Element(RSI, src.at, i, SizeOf(elem, I386)), Element(RDI, dst.at, i, SizeOf(elem, X86_64));
    PassOperands(elem, i, n, src.at, dst.at, log, data, s);
    SameIsSame(x);
    SameIsSame(y);
    SameMoves(w, elem, x, x, y, y, DataOf(q, data + 24), DataOf(s, data));
    ElementsNext(w, elem, i, src, dst, DataOf(s, data));
    PassLogs(elem, i, n, src.at, dst.at, log, Moved(w, elem, x, y, DataOf(s, data)), s);
    StepsRun(elem, i, n, src.at, dst.at, more, s);
    RunAppend(body, steps, q);
    ThenRuns(AtPass(elem, i, n, src.at, dst.at, more, s), steps);
    SameCount(elem, i, n, src.at, dst.at, log, more, s);
  }

  lemma {:induction false} SameIsSame(p: Place)
    ensures Same(p, p)
  {
  }

  lemma {:induction false} ThenRuns(s: Cpu, code: seq<Inst>)
    ensures Then(Some(s), code) == Run(code, s)
  {
    hide Run;
  }

  lemma {:induction false} SameCount(elem: CType, i: nat, n: nat, src: Addr, dst: Addr, log: seq<Move>, more: seq<Move>, s: Cpu)
    requires i <= n
    ensures AtPass(elem, i, n, src, dst, log, s).rcx == AtPass(elem, i, n, src, dst, more, s).rcx == Count(n - i)
  {
    hide SizeOf;
  }

  lemma {:induction false} PassLogs(elem: CType, i: nat, n: nat, src: Addr, dst: Addr, log: seq<Move>, moves: seq<Move>, s: Cpu)
    requires i <= n
    ensures var q := AtPass(elem, i, n, src, dst, log, s);
      q.(log := q.log + moves) == AtPass(elem, i, n, src, dst, log + moves, s)
  {
    hide SizeOf;
    assert s.log + log + moves == s.log + (log + moves);
  }

  lemma {:induction false} NextCount(elem: CType, i: nat, n: nat, src: Addr, dst: Addr, log: seq<Move>, w: Word, s: Cpu)
    requires i < n
    ensures AtPass(elem, i + 1, n, src, dst, log, s).(rcx := w).(rcx := Count(n - i - 1)) ==
            AtPass(elem, i + 1, n, src, dst, log, s)
  {
    hide SizeOf;
  }

  lemma {:induction false} NoPass(body: seq<Inst>, s: Cpu)
    ensures Passes(body, 0, s) == Some(s)
  {
  }

  lemma {:induction false} PassesRun(
    w: Way, elem: CType, i: nat, n: nat, src: Place, dst: Place, data: int, body: seq<Inst>, s: Cpu)
    requires i <= n && Convertible(elem)
    requires Code(w, elem, Mem(RSI, 0), Mem(RDI, 0), data + 24).Some?
    requires body == Code(w, elem, Mem(RSI, 0), Mem(RDI, 0), data + 24).value.code
    ensures
      var steps := [Add(RDI, SizeOf(elem, X86_64)), Add(RSI, SizeOf(elem, I386))];
      var all := ElementsMoved(w, elem, n, src, dst, DataOf(s, data));
      Passes(body + steps, n - i, AtPass(elem, i, n, src.at, dst.at, ElementsMoved(w, elem, i, src, dst, DataOf(s, data)), s)) ==
      Some(AtPass(elem, n, n, src.at, dst.at, all, s))
    decreases elem, 2, n - i
  {
    hide *;
    var steps := [Add(RDI, SizeOf(elem, X86_64)), Add(RSI, SizeOf(elem, I386))];
    var log, more := ElementsMoved(w, elem, i, src, dst, DataOf(s, data)), ElementsMoved(w, elem, i + 1, src, dst, DataOf(s, data));
    var q := AtPass(elem, i, n, src.at, dst.at, log, s);
    if i == n {
      NoPass(body + steps, q);
    } else {
      PassOperands(elem, i, n, src.at, dst.at, log, data, s);
      CodeRuns(w, elem, Mem(RSI, 0), Mem(RDI, 0), data + 24, q);
      PassRuns(w, elem, i, n, src, dst, data, body, s);
      OnePass(body + steps, n - i, q, AtPass(elem, i + 1, n, src.at, dst.at, more, s).(rcx := q.rcx));
      NextCount(elem, i, n, src.at, dst.at, more, q.rcx, s);
      PassesRun(w, elem, i + 1, n, src, dst, data, body, s);
    }
  }

  lemma {:induction false} LoopIs(body: seq<Inst>, n: nat, s: Cpu)
    requires n > 0 && s.rcx == Count(n)
    ensures Run([Loop(body)], s) == Passes(body, n, s)
  {
    RunOne(Loop(body), s);
    hide Run, Passes;
  }

  /** What is left of the loop's registers once they are popped. */
  lemma {:induction false} ArrayLeaves(elem: CType, n: nat, src: Mem, dst: Mem, body: seq<Inst>, x: Addr, y: Addr, moves: seq<Move>, s: Cpu)
    requires
      var enter, steps := [SetCount(n), Lea(RDI, Below(dst, 3)), Lea(RSI, Below(src, 3))],
                          [Add(RDI, SizeOf(elem, X86_64)), Add(RSI, SizeOf(elem, I386))];
      Run(enter + [Loop(body + steps)], Pushed(RSI, Pushed(RDI, Pushed(RCX, s)))) == Some(AtPass(elem, n, n, x, y, moves, s))
    ensures Run(ArrayCode(elem, n, src, dst, body), s) == Some(s.(log := s.log + moves))
  {
    var enter, steps := [SetCount(n), Lea(RDI, Below(dst, 3)), Lea(RSI, Below(src, 3))],
                        [Add(RDI, SizeOf(elem, X86_64)), Add(RSI, SizeOf(elem, I386))];
    var inner := enter + [Loop(body + steps)];
    assert inner == [SetCount(n), Lea(RDI, Below(dst, 3)), Lea(RSI, Below(src, 3)), Loop(body + steps)];
    assert ArrayCode(elem, n, src, dst, body) == Saved(RCX, Saved(RDI, Saved(RSI, inner)));
    hide Run, SizeOf, Saved, Below, ArrayCode;
    var p := Pushed(RDI, Pushed(RCX, s));
    var q := AtPass(elem, n, n, x, y, moves, s);
    SavedRuns(RSI, inner, p, q);
    var r := p.(rdi := q.rdi, rcx := q.rcx, log := q.log);
    SavedRuns(RDI, Saved(RSI, inner), Pushed(RCX, s), r);
    SavedRuns(RCX, Saved(RDI, Saved(RSI, inner)), s, Pushed(RCX, s).(rcx := q.rcx, log := q.log));
  }

  lemma {:induction false} ArrayRuns(w: Way, elem: CType, n: nat, src: Mem, dst: Mem, data: int, s: Cpu)
    requires n >= 1 && Convertible(elem) && Ready(s, src, dst)
    requires Code(w, elem, Mem(RSI, 0), Mem(RDI, 0), data + 24).Some?
    ensures
      var body := Code(w, elem, Mem(RSI, 0), Mem(RDI, 0), data + 24).value.code;
      Run(ArrayCode(elem, n, src, dst, body), s) ==
      Some(s.(log := s.log + ElementsMoved(w, elem, n, PlaceOf(s, src), PlaceOf(s, dst), DataOf(s, data))))
    decreases elem, 2, n + 1
  {
    hide *;
    ReadySome(src, dst, s);
    var body := Code(w, elem, Mem(RSI, 0), Mem(RDI, 0), data + 24).value.code;
    var x, y, d := PlaceOf(s, src), PlaceOf(s, dst), DataOf(s, data);
    var enter, steps := [SetCount(n), Lea(RDI, Below(dst, 3)), Lea(RSI, Below(src, 3))],
                        [Add(RDI, SizeOf(elem, X86_64)), Add(RSI, SizeOf(elem, I386))];
    var q := AtPass(elem, 0, n, x.at, y.at, [], s);
    PlacesAre(src, dst, s);
    ArrayEnters(elem, n, src, dst, s);
    RunAppend(enter, [Loop(body + steps)], Pushed(RSI, Pushed(RDI, Pushed(RCX, s))));
    ThenRuns(q, [Loop(body + steps)]);
    SameCount(elem, 0, n, x.at, y.at, [], [], s);
    LoopIs(body + steps, n, q);
    ElementsNext(w, elem, 0, x, y, d);
    PassesRun(w, elem, 0, n, x, y, data, body, s);
    ArrayLeaves(elem, n, src, dst, body, x.at, y.at, ElementsMoved(w, elem, n, x, y, d), s);
  }

  lemma {:induction false} PlacesAre(src: Mem, dst: Mem, s: Cpu)
    requires Ready(s, src, dst)
    ensures PlaceOf(s, src).at == Resolve(s, src).value && PlaceOf(s, dst).at == Resolve(s, dst).value
  {
  }

  // ----- every type -----

  lemma {:induction false} PointeeOperands(w: Way, pointee: CType, src: Mem, dst: Mem, data: int, s: Cpu)
    requires Ready(s, src, dst) && Convertible(pointee)
    ensures
      var slot, d := Slot(pointee, DataOf(s, data)), SlotIndex(pointee, data + 8 * PushesBefore(w));
      var q := AtPointee(w, slot, Resolve(s, src).value, PlaceOf(s, dst), s);
      var pushed := d + SizeOf(pointee, X86_64) + 8 * (2 - PushesBefore(w));
      && slot.at == Plus(s.rsp, d - 8 * PushesBefore(w))
      && Ready(q, Mem(R12, 0), Mem(R11, 0))
      && PlaceOf(q, Mem(R12, 0)) == PointeeSrc(w, PlaceOf(s, src), slot)
      && PlaceOf(q, Mem(R11, 0)) == PointeeDst(w, PlaceOf(s, dst), slot)
      && Same(DataOf(q, pushed), Behind(pointee, slot))
      && pushed == SlotIndex(pointee, data) + SizeOf(pointee, X86_64) + 16
  {
    SmallAlign(pointee, X86_64);
    hide AlignOf, SizeOf, AlignIndex, Convertible;
    AlignIndexMoves(data, 8 * PushesBefore(w), AlignOf(pointee, X86_64));
  }

  lemma {:induction false} PointerRuns(w: Way, pointee: CType, src: Mem, dst: Mem, data: int, body: seq<Inst>, s: Cpu)
    requires Ready(s, src, dst) && Convertible(pointee)
    requires
      var slot, d := Slot(pointee, DataOf(s, data)), SlotIndex(pointee, data + 8 * PushesBefore(w));
      var q := AtPointee(w, slot, Resolve(s, src).value, PlaceOf(s, dst), s);
      var pushed := d + SizeOf(pointee, X86_64) + 8 * (2 - PushesBefore(w));
      && Ready(q, Mem(R12, 0), Mem(R11, 0))
      && Run(body, q) ==
         Some(q.(log := q.log + Moved(w, pointee, PlaceOf(q, Mem(R12, 0)), PlaceOf(q, Mem(R11, 0)), DataOf(q, pushed))))
    ensures
      var d := SlotIndex(pointee, data + 8 * PushesBefore(w));
      Run(PointerCode(w, d, src, dst, body), s) ==
      Some(s.(log := s.log + Moved(w, PointerTo(pointee), PlaceOf(s, src), PlaceOf(s, dst), DataOf(s, data))))
  {
    hide *;
    ReadySome(src, dst, s);
    var slot, d := Slot(pointee, DataOf(s, data)), SlotIndex(pointee, data + 8 * PushesBefore(w));
    var q := AtPointee(w, slot, Resolve(s, src).value, PlaceOf(s, dst), s);
    var pushed := d + SizeOf(pointee, X86_64) + 8 * (2 - PushesBefore(w));
    PointeeOperands(w, pointee, src, dst, data, s);
    var x, y, z := PointeeSrc(w, PlaceOf(s, src), slot), PointeeDst(w, PlaceOf(s, dst), slot), Behind(pointee, slot);
    SameIsSame(x);
    SameIsSame(y);
    SameMoves(w, pointee, x, x, y, y, DataOf(q, pushed), z);
    PointerMoved(w, pointee, PlaceOf(s, src), PlaceOf(s, dst), DataOf(s, data));
    if w.Forth? {
      PushesAre();
      ForthRuns(d, src, dst, body, Moved(w, pointee, x, y, z), s, slot);
    } else {
      PushesAre();
      BackRuns(d, src, dst, body, Moved(w, pointee, x, y, z), s, slot);
    }
  }

  lemma {:induction false} PushesAre()
    ensures PushesBefore(Forth) == 1 && PushesBefore(Back) == 2
  {
  }

  lemma {:induction false} PointerMoved(w: Way, pointee: CType, src: Place, dst: Place, data: Place)
    ensures
      var slot := Slot(pointee, data);
      var inner := Moved(w, pointee, PointeeSrc(w, src, slot), PointeeDst(w, dst, slot), Behind(pointee, slot));
      && Moved(w, PointerTo(pointee), src, dst, data) == PointerMoves(w, dst, slot) + inner
      && (w.Back? ==> Moved(w, PointerTo(pointee), src, dst, data) == inner)
  {
    hide Slot, Behind, PointeeSrc, PointeeDst;
    var slot := Slot(pointee, data);
    var inner := Moved(w, pointee, PointeeSrc(w, src, slot), PointeeDst(w, dst, slot), Behind(pointee, slot));
    assert [] + inner == inner;
  }

  lemma {:induction false} PushedData(w: Way, pointee: CType, data: int)
    requires Convertible(pointee)
    ensures SlotIndex(pointee, data + 8 * PushesBefore(w)) + SizeOf(pointee, X86_64) + 8 * (2 - PushesBefore(w)) ==
            SlotIndex(pointee, data) + SizeOf(pointee, X86_64) + 16
    ensures After(false, PointerTo(pointee), data) ==
            After(false, pointee, SlotIndex(pointee, data) + SizeOf(pointee, X86_64))
  {
    SmallAlign(pointee, X86_64);
    hide AlignOf, SizeOf, AlignIndex, Convertible;
    AlignIndexMoves(data, 8 * PushesBefore(w), AlignOf(pointee, X86_64));
  }

  lemma {:induction false} ArrayAfter(elem: CType, n: nat, data: int)
    ensures After(false, ConstantArray(elem, n), data) == After(false, elem, data)
  {
  }

  lemma {:induction false} StructAfter(t: CType, data: int)
    requires t.Struct?
    ensures After(false, t, data) == AfterFields(false, t, |t.fields|, data)
  {
    hide AfterFields;
  }

  lemma {:induction false} ScalarData(w: Way, k: Kind, src: Mem, dst: Mem, data: int)
    requires Convertible(Scalar(k))
    ensures var e := Code(w, Scalar(k), src, dst, data); e.Some? && e.value.data == After(false, Scalar(k), data)
  {
    hide IntCode, RealCode;
  }

  lemma {:induction false} CodeData(w: Way, t: CType, src: Mem, dst: Mem, data: int)
    requires Convertible(t)
    ensures var e := Code(w, t, src, dst, data); e.Some? && e.value.data == After(false, t, data)
    decreases t, 1, 0
  {
    hide *;
    ConvertibleIs(t);
    match t
    case Scalar(k) => ScalarData(w, k, src, dst, data);
    case PointerTo(pointee) =>
      var pushed := SlotIndex(pointee, data + 8 * PushesBefore(w)) + SizeOf(pointee, X86_64) + 8 * (2 - PushesBefore(w));
      CodeData(w, pointee, Mem(R12, 0), Mem(R11, 0), pushed);
      PushedData(w, pointee, data);
      AfterShift(false, pointee, SlotIndex(pointee, data) + SizeOf(pointee, X86_64), 16);
      PointerCodeIs(w, pointee, src, dst, data);
    case ConstantArray(elem, count) =>
      CodeData(w, elem, Mem(RSI, 0), Mem(RDI, 0), data + 24);
      AfterShift(false, elem, data, 24);
      ArrayCodeIs(w, elem, count, src, dst, data);
      ArrayAfter(elem, count, data);
    case Struct(fields, _) =>
      FieldsData(w, t, |fields|, src, dst, data);
      StructCodeIs(w, t, src, dst, data);
      StructAfter(t, data);
  }

  lemma {:induction false} NextFieldData(t: CType, n: nat, data: int)
    requires t.Struct? && n <= |t.fields|
    ensures n == 0 ==> AfterFields(false, t, n, data) == data
    ensures n > 0 ==> AfterFields(false, t, n, data) == After(false, t.fields[n - 1], AfterFields(false, t, n - 1, data))
  {
    hide After;
  }

  lemma {:induction false} FieldsData(w: Way, t: CType, n: nat, src: Mem, dst: Mem, data: int)
    requires t.Struct? && Convertible(t) && n <= |t.fields|
    ensures var e := FieldsCode(w, t, n, src, dst, data); e.Some? && e.value.data == AfterFields(false, t, n, data)
    decreases t, 0, n
  {
    hide *;
    if n == 0 {
      NoFieldsCode(w, t, src, dst, data);
      NextFieldData(t, 0, data);
    } else {
      var s, d := Mem(src.base, FieldAt(t, n - 1, From(w), src.index)), Mem(dst.base, FieldAt(t, n - 1, To(w), dst.index));
      FieldsData(w, t, n - 1, src, dst, data);
      FieldsCodeNext(w, t, n - 1, src, dst, data);
      ConvertibleField(t, n - 1);
      CodeData(w, t.fields[n - 1], s, d, AfterFields(false, t, n - 1, data));
      NextFieldData(t, n, data);
    }
  }

  lemma {:induction false} ScalarRuns(w: Way, k: Kind, src: Mem, dst: Mem, data: int, s: Cpu)
    requires !k.LongDouble? && Ready(s, src, dst)
    ensures
      var e := Code(w, Scalar(k), src, dst, data);
      e.Some? && Run(e.value.code, s) == Some(s.(log := s.log + Moved(w, Scalar(k), PlaceOf(s, src), PlaceOf(s, dst), DataOf(s, data))))
  {
    hide Ready, IntCode, RealCode;
    if !Converted(k) {
      assert s.log + [] == s.log;
    } else if Real(k) {
      RealRuns(w, k, src, dst, s);
      hide Run;
    } else {
      IntRuns(w, k, src, dst, s);
      PlacesAre(src, dst, s);
      hide Run, Resolve, PlaceOf, IntMove;
    }
  }

  lemma {:induction false} ArrayMoved(w: Way, elem: CType, n: nat, src: Place, dst: Place, data: Place)
    ensures Moved(w, ConstantArray(elem, n), src, dst, data) == ElementsMoved(w, elem, n, src, dst, data)
  {
    hide ElementsMoved;
  }

  lemma {:induction false} StructMoved(w: Way, t: CType, src: Place, dst: Place, data: Place)
    requires t.Struct?
    ensures Moved(w, t, src, dst, data) == FieldsMoved(w, t, |t.fields|, src, dst, data)
  {
    hide FieldsMoved;
  }

  lemma {:induction false} NotLong(k: Kind)
    ensures Convertible(Scalar(k)) <==> !k.LongDouble?
  {
  }

  /** What the code for a type does: these writes, and nothing else is different afterwards. */
  lemma {:induction false} CodeRuns(w: Way, t: CType, src: Mem, dst: Mem, data: int, s: Cpu)
    requires Convertible(t) && Ready(s, src, dst)
    ensures
      var e := Code(w, t, src, dst, data);
      e.Some? && Run(e.value.code, s) == Some(s.(log := s.log + Moved(w, t, PlaceOf(s, src), PlaceOf(s, dst), DataOf(s, data))))
    decreases t, 1, 0
  {
    hide *;
    ConvertibleIs(t);
    match t
    case Scalar(k) =>
      NotLong(k);
      ScalarRuns(w, k, src, dst, data, s);
    case PointerTo(pointee) =>
      ReadySome(src, dst, s);
      var slot, d := Slot(pointee, DataOf(s, data)), SlotIndex(pointee, data + 8 * PushesBefore(w));
      var q := AtPointee(w, slot, Resolve(s, src).value, PlaceOf(s, dst), s);
      var pushed := d + SizeOf(pointee, X86_64) + 8 * (2 - PushesBefore(w));
      PointeeOperands(w, pointee, src, dst, data, s);
      CodeRuns(w, pointee, Mem(R12, 0), Mem(R11, 0), pushed, q);
      PointerRuns(w, pointee, src, dst, data, Code(w, pointee, Mem(R12, 0), Mem(R11, 0), pushed).value.code, s);
      PointerCodeIs(w, pointee, src, dst, data);
    case ConstantArray(elem, count) =>
      ReadySome(src, dst, s);
      CodeIff(w, elem, Mem(RSI, 0), Mem(RDI, 0), data + 24);
      ArrayRuns(w, elem, count, src, dst, data, s);
      ArrayCodeIs(w, elem, count, src, dst, data);
      ArrayMoved(w, elem, count, PlaceOf(s, src), PlaceOf(s, dst), DataOf(s, data));
    case Struct(fields, _) =>
      ReadySome(src, dst, s);
      FieldsRun(w, t, |fields|, src, dst, data, s);
      StructCodeIs(w, t, src, dst, data);
      StructMoved(w, t, PlaceOf(s, src), PlaceOf(s, dst), DataOf(s, data));
  }

  lemma {:induction false} ReadySome(src: Mem, dst: Mem, s: Cpu)
    requires Ready(s, src, dst)
    ensures Resolve(s, src).Some? && Resolve(s, dst).Some?
  {
  }

  lemma {:induction false} FieldOperands(w: Way, t: CType, n: nat, src: Mem, dst: Mem, data: int, moves: seq<Move>, s: Cpu)
    requires t.Struct? && n < |t.fields| && Ready(s, src, dst)
    ensures
      var a, b := Mem(src.base, FieldAt(t, n, From(w), src.index)), Mem(dst.base, FieldAt(t, n, To(w), dst.index));
      var q := s.(log := s.log + moves);
      && Ready(q, a, b)
      && PlaceOf(q, a) == Field(t, n, From(w), PlaceOf(s, src)) && PlaceOf(q, b) == Field(t, n, To(w), PlaceOf(s, dst))
      && DataOf(q, AfterFields(false, t, n, data)) == FieldData(false, t, n, DataOf(s, data))
  {
    hide FieldAt, AfterFields;
  }

  lemma {:induction false} NoFieldsRun(w: Way, t: CType, src: Mem, dst: Mem, data: int, x: Place, y: Place, z: Place, s: Cpu)
    requires t.Struct?
    ensures FieldsCode(w, t, 0, src, dst, data) == Some(Emitted([], data)) && Run([], s) == Some(s)
    ensures s.(log := s.log + FieldsMoved(w, t, 0, x, y, z)) == s
  {
    assert s.log + [] == s.log;
  }

  lemma {:induction false} LogTwice(s: Cpu, a: seq<Move>, b: seq<Move>)
    ensures var q := s.(log := s.log + a); q.(log := q.log + b) == s.(log := s.log + (a + b))
  {
    assert s.log + a + b == s.log + (a + b);
  }

  lemma {:induction false} FieldsRun(w: Way, t: CType, n: nat, src: Mem, dst: Mem, data: int, s: Cpu)
    requires t.Struct? && Convertible(t) && n <= |t.fields| && Ready(s, src, dst)
    ensures
      var e := FieldsCode(w, t, n, src, dst, data);
      && e.Some? && Run(e.value.code, s) ==
         Some(s.(log := s.log + FieldsMoved(w, t, n, PlaceOf(s, src), PlaceOf(s, dst), DataOf(s, data))))
    decreases t, 0, n
  {
    hide *;
    ReadySome(src, dst, s);
    var x, y, z := PlaceOf(s, src), PlaceOf(s, dst), DataOf(s, data);
    if n == 0 {
      NoFieldsRun(w, t, src, dst, data, x, y, z, s);
    } else {
      var a, b := Mem(src.base, FieldAt(t, n - 1, From(w), src.index)), Mem(dst.base, FieldAt(t, n - 1, To(w), dst.index));
      var before, moves := FieldsCode(w, t, n - 1, src, dst, data), FieldsMoved(w, t, n - 1, x, y, z);
      var q := s.(log := s.log + moves);
      FieldsRun(w, t, n - 1, src, dst, data, s);
      FieldsData(w, t, n - 1, src, dst, data);
      ConvertibleField(t, n - 1);
      FieldOperands(w, t, n - 1, src, dst, data, moves, s);
      ReadySome(a, b, q);
      CodeRuns(w, t.fields[n - 1], a, b, before.value.data, q);
      FieldsCodeNext(w, t, n - 1, src, dst, data);
      NextFieldMoved(w, t, n, x, y, z);
      RunAppend(before.value.code, Code(w, t.fields[n - 1], a, b, before.value.data).value.code, s);
      ThenRuns(q, Code(w, t.fields[n - 1], a, b, before.value.data).value.code);
      LogTwice(s, moves, Moved(w, t.fields[n - 1], PlaceOf(q, a), PlaceOf(q, b), DataOf(q, before.value.data)));
    }
  }
}
