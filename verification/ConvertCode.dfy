/**
 The code the ABI converter emits for a type (src/abiconv/typeconv.cc, src/abiconv/loc.cc), and the processor that
 runs it. Memory is not given contents: a register holds an address, or what was read at one, and every write is
 logged with the address it goes to. Nothing that is read is taken to have been overwritten in between.
 */
module ConvertCode {
  import opened Wrappers
  import opened RecordLayout

  datatype Reg = RAX | RCX | RDI | RSI | R11 | R12 | RSP | RBP | XMM0

  /** A memory operand. */
  datatype Mem = Mem(base: Reg, index: int)

  /** The two conversions of a call: its arguments to x86_64, and back to i386 when it has returned. */
  datatype Way = Forth | Back

  function From(w: Way): Arch
  {
    if w.Forth? then I386 else X86_64
  }

  function To(w: Way): Arch
  {
    if w.Forth? then X86_64 else I386
  }

  /** The operand after `n` pushes. */
  function Below(m: Mem, n: nat): Mem
  {
    if m.base.RSP? then Mem(RSP, m.index + 8 * n) else m
  }

  // ----- the processor -----

  /** Push and pop of `xmm0` stand for the two instructions that move `rsp` and the register. */
  datatype Inst =
    | Push(reg: Reg)
    | Pop(reg: Reg)
    | Lea(reg: Reg, mem: Mem)
    | Mov(reg: Reg, mem: Mem, width: nat)
    | Movsx(reg: Reg, mem: Mem, width: nat, wide: nat)
    | Extend(reg: Reg, width: nat, wide: nat)           // movsx of a register into itself
    | Store(mem: Mem, reg: Reg, width: nat)
    | SetCount(count: nat)                              // mov ecx, count
    | Add(reg: Reg, n: nat)
    | Loop(body: seq<Inst>)                             // body; dec ecx; jnz body

  /** What an address is relative to: a register at the start, or the pointer that memory holds. */
  datatype Root = Entry(reg: Reg) | Held(at: Addr)

  datatype Addr = Addr(root: Root, off: int)

  datatype Extension = Zero | Sign

  /** `Bits` are the first `read` bytes at `at`, extended to `wide` bytes. */
  datatype Word = Address(addr: Addr) | Bits(at: Addr, read: nat, wide: nat, ext: Extension) | Count(n: nat)

  /** One write of `width` bytes. */
  datatype Move = Move(value: Word, dst: Addr, width: nat)

  datatype Cpu = Cpu(
    rax: Word, rcx: Word, rdi: Word, rsi: Word, r11: Word, r12: Word, rbp: Word, xmm0: Word, rsp: Addr,
    stack: seq<Word>, log: seq<Move>)

  function Plus(a: Addr, n: int): Addr
  {
    Addr(a.root, a.off + n)
  }

  function Get(s: Cpu, r: Reg): Word
  {
    match r
    case RAX => s.rax
    case RCX => s.rcx
    case RDI => s.rdi
    case RSI => s.rsi
    case R11 => s.r11
    case R12 => s.r12
    case RBP => s.rbp
    case XMM0 => s.xmm0
    case RSP => Address(s.rsp)
  }

  /** `rsp` moves with push and pop only. */
  function Set(s: Cpu, r: Reg, w: Word): Cpu
  {
    match r
    case RAX => s.(rax := w)
    case RCX => s.(rcx := w)
    case RDI => s.(rdi := w)
    case RSI => s.(rsi := w)
    case R11 => s.(r11 := w)
    case R12 => s.(r12 := w)
    case RBP => s.(rbp := w)
    case XMM0 => s.(xmm0 := w)
    case RSP => s
  }

  /** A dword that was read may be used as an address once its upper half is zero. */
  function AsAddr(w: Word): Option<Addr>
  {
    match w
    case Address(a) => Some(a)
    case Bits(at, read, wide, ext) => if read == 4 && wide == 8 && ext.Zero? then Some(Addr(Held(at), 0)) else None
    case Count(_) => None
  }

  function Resolve(s: Cpu, m: Mem): Option<Addr>
  {
    match AsAddr(Get(s, m.base))
    case None => None
    case Some(a) => Some(Plus(a, m.index))
  }

  /** mov of a dword clears the upper half of a general register. */
  function Loaded(at: Addr, r: Reg, width: nat): Word
  {
    Bits(at, width, if width == 4 && !r.XMM0? then 8 else width, Zero)
  }

  /** The low `width` bytes of a register. */
  function Low(w: Word, width: nat): Option<Word>
  {
    match w
    case Address(_) => Some(w)
    case Bits(at, read, wide, ext) =>
      if width <= read then Some(Bits(at, width, width, Zero))
      else if width <= wide then Some(Bits(at, read, width, ext))
      else None
    case Count(_) => None
  }

  /** movsx of the low `width` bytes. */
  function Extended(w: Word, width: nat, wide: nat): Option<Word>
  {
    if w.Bits? && width <= w.read then Some(Bits(w.at, width, wide, Sign)) else None
  }

  function Added(w: Word, n: nat): Option<Word>
  {
    if w.Address? then Some(Address(Plus(w.addr, n))) else None
  }

  function Exec(i: Inst, s: Cpu): Option<Cpu>
    decreases i, 0, 0
  {
    match i
    case Push(r) => Some(s.(stack := [Get(s, r)] + s.stack, rsp := Plus(s.rsp, -8)))
    case Pop(r) =>
      if s.stack == [] then None else Some(Set(s.(stack := s.stack[1..], rsp := Plus(s.rsp, 8)), r, s.stack[0]))
    case Lea(r, m) => (match Resolve(s, m) case None => None case Some(a) => Some(Set(s, r, Address(a))))
    case Mov(r, m, width) => (match Resolve(s, m) case None => None case Some(a) => Some(Set(s, r, Loaded(a, r, width))))
    case Movsx(r, m, width, wide) =>
      (match Resolve(s, m) case None => None case Some(a) => Some(Set(s, r, Bits(a, width, wide, Sign))))
    case Extend(r, width, wide) =>
      (match Extended(Get(s, r), width, wide) case None => None case Some(v) => Some(Set(s, r, v)))
    case Store(m, r, width) =>
      var v, a := Low(Get(s, r), width), Resolve(s, m);
      if v.None? || a.None? then None else Some(s.(log := s.log + [Move(v.value, a.value, width)]))
    case SetCount(count) => Some(s.(rcx := Count(count)))
    case Add(r, n) => (match Added(Get(s, r), n) case None => None case Some(v) => Some(Set(s, r, v)))
    case Loop(body) => if s.rcx.Count? && s.rcx.n > 0 then Passes(body, s.rcx.n, s) else None
  }

  function Run(code: seq<Inst>, s: Cpu): Option<Cpu>
    decreases code, 1, 0
  {
    if code == [] then Some(s)
    else match Exec(code[0], s) case None => None case Some(next) => Run(code[1..], next)
  }

  /** `n` passes of a loop, each of which must leave the count alone. */
  function Passes(body: seq<Inst>, n: nat, s: Cpu): Option<Cpu>
    decreases body, 2, n
  {
    if n == 0 then Some(s)
    else
      match Run(body, s)
      case None => None
      case Some(next) => if next.rcx == Count(n) then Passes(body, n - 1, next.(rcx := Count(n - 1))) else None
  }

  // ----- the generator -----

  predicate Signed(k: Kind)
  {
    !(k.Pointer? || k.BlockPointer? || k.Bool? || k.ULong?)
  }

  predicate Real(k: Kind)
  {
    k.Float? || k.Double? || k.LongDouble?
  }

  /** Void and function types are not converted. */
  predicate Converted(k: Kind)
  {
    !k.Void? && !k.FunctionProto?
  }

  function Saved(r: Reg, body: seq<Inst>): seq<Inst>
  {
    [Push(r)] + body + [Pop(r)]
  }

  /** convert_int from memory to a register. */
  function LoadInt(w: Way, k: Kind, r: Reg, m: Mem): seq<Inst>
  {
    var from, to := ScalarSize(k, From(w)), ScalarSize(k, To(w));
    if from < to then (if Signed(k) then [Movsx(r, m, from, to)] else [Mov(r, m, from)]) else [Mov(r, m, to)]
  }

  /** convert_int from a register to memory. */
  function StoreInt(w: Way, k: Kind, m: Mem, r: Reg): seq<Inst>
  {
    var from, to := ScalarSize(k, From(w)), ScalarSize(k, To(w));
    if from < to then (if Signed(k) then [Extend(r, from, to), Store(m, r, to)] else [Store(m, r, from)])
    else [Store(m, r, to)]
  }

  /** convert_int between two memory operands, through `rax`. */
  function IntCode(w: Way, k: Kind, src: Mem, dst: Mem): seq<Inst>
  {
    Saved(RAX, LoadInt(w, k, RAX, Below(src, 1)) + StoreInt(w, k, Below(dst, 1), RAX))
  }

  /** convert_real through `xmm0`: it moves its copies of the operands below the push, but uses the operands. */
  function RealCode(k: Kind, src: Mem, dst: Mem): seq<Inst>
  {
    var width := ScalarSize(k, X86_64);
    Saved(XMM0, [Mov(XMM0, src, width), Store(dst, XMM0, width)])
  }

  /** convert_pointer around the code `body` for the pointee, whose x86_64 copy is at index `slot`. */
  function PointerCode(w: Way, slot: int, src: Mem, dst: Mem, body: seq<Inst>): seq<Inst>
  {
    if w.Forth? then
      Saved(R11,
            [Lea(R11, Mem(RSP, slot))] + StoreInt(w, Pointer, Below(dst, 1), R11) +
            Saved(R12, LoadInt(w, Pointer, R12, Below(src, 2)) + body))
    else
      Saved(R12, Saved(R11, [Lea(R12, Mem(RSP, slot))] + LoadInt(w, Pointer, R11, Below(dst, 2)) + body))
  }

  /** convert_constant_array around the code `body` for an element: the steps do not depend on the direction. */
  function ArrayCode(elem: CType, count: nat, src: Mem, dst: Mem, body: seq<Inst>): seq<Inst>
  {
    var steps := [Add(RDI, SizeOf(elem, X86_64)), Add(RSI, SizeOf(elem, I386))];
    Saved(RCX, Saved(RDI, Saved(RSI,
      [SetCount(count), Lea(RDI, Below(dst, 3)), Lea(RSI, Below(src, 3)), Loop(body + steps)])))
  }

  /** The first index from `data` where the x86_64 copy of a pointee may be put. */
  function SlotIndex(pointee: CType, data: int): int
  {
    AlignIndex(data, AlignOf(pointee, X86_64))
  }

  /** The pushes of convert_pointer before it takes room for the pointee. */
  function PushesBefore(w: Way): nat
  {
    if w.Forth? then 1 else 2
  }

  /** What is written to the stream, and the data cursor after it. */
  datatype Emitted = Emitted(code: seq<Inst>, data: int)

  /**
   convert: the code for a value of type `t`, or none where it throws or an assertion fails. The cursor `data` is
   relative to `rsp`, as it stands after the pushes so far.
   */
  function Code(w: Way, t: CType, src: Mem, dst: Mem, data: int): Option<Emitted>
    decreases t, 1, 0
  {
    match t
    case Scalar(k) =>
      if !Converted(k) then Some(Emitted([], data))
      else if k.LongDouble? then None
      else Some(Emitted(if Real(k) then RealCode(k, src, dst) else IntCode(w, k, src, dst), data))
    case PointerTo(pointee) =>
      var slot := SlotIndex(pointee, data + 8 * PushesBefore(w));
      var pushed := slot + SizeOf(pointee, X86_64) + 8 * (2 - PushesBefore(w));
      (match Code(w, pointee, Mem(R12, 0), Mem(R11, 0), pushed)
       case None => None
       case Some(e) => Some(Emitted(PointerCode(w, slot, src, dst, e.code), e.data - 16)))
    case ConstantArray(elem, count) =>
      if count == 0 then None
      else
        (match Code(w, elem, Mem(RSI, 0), Mem(RDI, 0), data + 24)
         case None => None
         case Some(e) => Some(Emitted(ArrayCode(elem, count, src, dst, e.code), e.data - 24)))
    case Struct(fields, _) => FieldsCode(w, t, |fields|, src, dst, data)
  }

  /** The loop of convert_record after `n` fields. */
  function FieldsCode(w: Way, t: CType, n: nat, src: Mem, dst: Mem, data: int): Option<Emitted>
    requires t.Struct? && n <= |t.fields|
    decreases t, 0, n
  {
    if n == 0 then Some(Emitted([], data))
    else
      match FieldsCode(w, t, n - 1, src, dst, data)
      case None => None
      case Some(before) =>
        var s, d := Mem(src.base, FieldAt(t, n - 1, From(w), src.index)), Mem(dst.base, FieldAt(t, n - 1, To(w), dst.index));
        match Code(w, t.fields[n - 1], s, d, before.data)
        case None => None
        case Some(e) => Some(Emitted(before.code + e.code, e.data))
  }

  /** The converter has no code for a `long double`, not even behind a pointer, and none for an empty array. */
  predicate Convertible(t: CType)
    decreases t
  {
    match t
    case Scalar(k) => !k.LongDouble?
    case PointerTo(pointee) => Convertible(pointee)
    case ConstantArray(elem, count) => count >= 1 && Convertible(elem)
    case Struct(fields, _) => forall i :: 0 <= i < |fields| ==> Convertible(fields[i])
  }

  lemma {:induction false} PointerCodeIs(w: Way, pointee: CType, src: Mem, dst: Mem, data: int)
    ensures
      var d := SlotIndex(pointee, data + 8 * PushesBefore(w));
      var inner := Code(w, pointee, Mem(R12, 0), Mem(R11, 0), d + SizeOf(pointee, X86_64) + 8 * (2 - PushesBefore(w)));
      inner.Some? ==> Code(w, PointerTo(pointee), src, dst, data) ==
                      Some(Emitted(PointerCode(w, d, src, dst, inner.value.code), inner.value.data - 16))
    ensures
      var d := SlotIndex(pointee, data + 8 * PushesBefore(w));
      var inner := Code(w, pointee, Mem(R12, 0), Mem(R11, 0), d + SizeOf(pointee, X86_64) + 8 * (2 - PushesBefore(w)));
      inner.None? ==> Code(w, PointerTo(pointee), src, dst, data).None?
  {
    hide SlotIndex, SizeOf, PushesBefore, PointerCode;
  }

  lemma {:induction false} ArrayCodeIs(w: Way, elem: CType, n: nat, src: Mem, dst: Mem, data: int)
    requires n >= 1
    ensures
      var inner := Code(w, elem, Mem(RSI, 0), Mem(RDI, 0), data + 24);
      inner.Some? ==> Code(w, ConstantArray(elem, n), src, dst, data) ==
                      Some(Emitted(ArrayCode(elem, n, src, dst, inner.value.code), inner.value.data - 24))
    ensures Code(w, elem, Mem(RSI, 0), Mem(RDI, 0), data + 24).None? ==> Code(w, ConstantArray(elem, n), src, dst, data).None?
  {
    hide ArrayCode;
  }

  lemma {:induction false} StructCodeIs(w: Way, t: CType, src: Mem, dst: Mem, data: int)
    requires t.Struct?
    ensures Code(w, t, src, dst, data) == FieldsCode(w, t, |t.fields|, src, dst, data)
  {
    hide FieldsCode;
  }

  lemma {:induction false} ConvertibleIs(t: CType)
    ensures t.PointerTo? ==> (Convertible(t) <==> Convertible(t.pointee))
    ensures t.ConstantArray? ==> (Convertible(t) <==> t.count >= 1 && Convertible(t.elem))
    ensures t.Struct? ==> (Convertible(t) <==> forall i :: 0 <= i < |t.fields| ==> Convertible(t.fields[i]))
  {
  }

  lemma {:induction false} NoElements(w: Way, elem: CType, src: Mem, dst: Mem, data: int)
    ensures Code(w, ConstantArray(elem, 0), src, dst, data).None?
  {
  }

  lemma {:induction false} ScalarCodeIff(w: Way, k: Kind, src: Mem, dst: Mem, data: int)
    ensures Code(w, Scalar(k), src, dst, data).Some? <==> Convertible(Scalar(k))
  {
  }

  /** convert writes code exactly for the types without either. */
  lemma {:induction false} CodeIff(w: Way, t: CType, src: Mem, dst: Mem, data: int)
    ensures Code(w, t, src, dst, data).Some? <==> Convertible(t)
    decreases t, 1, 0
  {
    hide *;
    ConvertibleIs(t);
    match t
    case Scalar(k) => ScalarCodeIff(w, k, src, dst, data);
    case PointerTo(pointee) =>
      var slot := SlotIndex(pointee, data + 8 * PushesBefore(w));
      PointerCodeIs(w, pointee, src, dst, data);
      CodeIff(w, pointee, Mem(R12, 0), Mem(R11, 0), slot + SizeOf(pointee, X86_64) + 8 * (2 - PushesBefore(w)));
    case ConstantArray(elem, count) =>
      if count == 0 {
        NoElements(w, elem, src, dst, data);
      } else {
        ArrayCodeIs(w, elem, count, src, dst, data);
        CodeIff(w, elem, Mem(RSI, 0), Mem(RDI, 0), data + 24);
      }
    case Struct(fields, _) =>
      StructCodeIs(w, t, src, dst, data);
      FieldsCodeIff(w, t, |fields|, src, dst, data);
  }

  lemma {:induction false} NoFieldsCode(w: Way, t: CType, src: Mem, dst: Mem, data: int)
    requires t.Struct?
    ensures FieldsCode(w, t, 0, src, dst, data) == Some(Emitted([], data))
  {
  }

  lemma {:induction false} FieldsCodeNext(w: Way, t: CType, n: nat, src: Mem, dst: Mem, data: int)
    requires t.Struct? && n < |t.fields|
    ensures FieldsCode(w, t, n, src, dst, data).None? ==> FieldsCode(w, t, n + 1, src, dst, data).None?
    ensures
      var before := FieldsCode(w, t, n, src, dst, data);
      before.Some? ==>
      var s, d := Mem(src.base, FieldAt(t, n, From(w), src.index)), Mem(dst.base, FieldAt(t, n, To(w), dst.index));
      var e := Code(w, t.fields[n], s, d, before.value.data);
      FieldsCode(w, t, n + 1, src, dst, data) ==
      if e.None? then None else Some(Emitted(before.value.code + e.value.code, e.value.data))
  {
    hide Code, FieldAt;
  }

  lemma {:induction false} FieldsCodeIff(w: Way, t: CType, n: nat, src: Mem, dst: Mem, data: int)
    requires t.Struct? && n <= |t.fields|
    ensures FieldsCode(w, t, n, src, dst, data).Some? <==> forall i :: 0 <= i < n ==> Convertible(t.fields[i])
    decreases t, 0, n
  {
    hide *;
    if n == 0 {
      NoFieldsCode(w, t, src, dst, data);
    } else {
      FieldsCodeIff(w, t, n - 1, src, dst, data);
      FieldsCodeNext(w, t, n - 1, src, dst, data);
      var before := FieldsCode(w, t, n - 1, src, dst, data);
      if before.Some? {
        var s, d := Mem(src.base, FieldAt(t, n - 1, From(w), src.index)), Mem(dst.base, FieldAt(t, n - 1, To(w), dst.index));
        CodeIff(w, t.fields[n - 1], s, d, before.value.data);
      }
    }
  }
}
