/**
 Section blobs (include/core/section_blob.hh, include/core/instruction.hh, include/core/stub_helper.hh) as
 values. A pointer to another blob is the identity `R` of the object pointed to.
 */
module Blobs {
  import opened Wrappers

  datatype Location = Location(offset: nat, vmaddr: nat) {
    function Plus(n: nat): (l: Location)
      ensures l.offset - offset == l.vmaddr - vmaddr == n
    {
      Location(offset + n, vmaddr + n)
    }
  }

  /** Instruction forms the translator distinguishes, as the decoder names them. */
  datatype Iform =
    | PushImmZ | PushImmB | MovGprImm | JmpMem          // forms whose immediate may be rebased
    | PushGpr | PopGpr | CallGpr | CallMem | CallRelZ | CallRelD | RetNear
    | IncGpr | DecGpr | PushMem
    | JmpRelB | JccRelB | OtherRelB                      // 8-bit branch displacement
    | JmpRelZ | JccRelZ                                  // 32-bit branch displacement
    | Rel16                                              // 16-bit branch displacement
    | Plain                                              // no branch displacement, no special rule

  /** A 4-byte immediate at the end of its instruction; its location is set when it is built. */
  datatype Imm<+R> = Imm(value: uint32, pointee: Option<R>, offset: int, vmaddr: int)

  /**
   A decoded instruction: `reg0` is its first register operand, `operand` its immediate as a 32-bit number,
   `dispPos` where its memory displacement field starts. A 32-bit branch displacement is always last.
   */
  datatype Insn<+R> = Insn(
    iform: Iform, buf: bytes, reg0: nat, operand: uint32, dispPos: nat,
    memdisp: Option<R>, brdisp: Option<R>, imm: Option<Imm<R>>)

  datatype Kind<+R> =
    | Data(value: byte)
    | Zero
    | LazyPointer(pointee: Option<R>)
    | NonLazyPointer
    | Placeholder
    | Inst(insn: Insn<R>)
    | Stub(push: Insn<R>, jmp: Insn<R>, pushLoc: Location, jmpLoc: Location, bindee: nat)

  datatype Blob<+R> = Blob(id: R, active: bool, loc: Location, kind: Kind<R>) {
    /** `size()`; `word` is the pointer size of the architecture. */
    function Size(word: nat): nat {
      match kind
      case Data(_) => 1
      case Zero => 1
      case LazyPointer(_) => word
      case NonLazyPointer => word
      case Placeholder => 0
      case Inst(insn) => |insn.buf|
      case Stub(push, jmp, _, _, _) => |push.buf| + |jmp.buf|
    }

    /** The bytes `Build` allocates. A stub helper builds its two instructions whether it is active or not. */
    function BuiltSize(word: nat): nat {
      if kind.Stub? || active then Size(word) else 0
    }

    /** The bytes `Emit` writes. */
    function EmittedSize(word: nat): nat {
      if active then Size(word) else 0
    }

    /** Where the first byte goes: a stub helper never sets its own location, only its instructions'. */
    function Start(): Location {
      if kind.Stub? then kind.pushLoc else loc
    }
  }

  /**
   parse_handle_relbr: an 8-bit branch gets a 32-bit displacement field. `None` is the original's `abort` or
   failed `assert`.
   */
  function Widen<R>(insn: Insn<R>): (w: Option<Insn<R>>)
  {
    match insn.iform
    case JccRelB =>
      if |insn.buf| == 2 && insn.buf[0] / 16 == 7 then
        Some(insn.(iform := JccRelZ, buf := [0x0f, insn.buf[0] % 16 + 0x80, insn.buf[1], 0, 0, 0]))
      else None
    case JmpRelB =>
      if |insn.buf| == 2 then
        Some(insn.(iform := JmpRelZ, buf := [0xe9, insn.buf[1], 0, 0, 0]))
      else None
    case OtherRelB => None
    case Rel16 => None
    case _ => Some(insn)
  }

  /** Widening happens at most once, and never shrinks or changes what the instruction refers to. */
  lemma {:induction false} WidenSettles<R>(insn: Insn<R>)
    requires Widen(insn).Some?
    ensures var w := Widen(insn).value;
      && Widen(w) == Some(w)
      && |insn.buf| <= |w.buf|
      && w.brdisp == insn.brdisp && w.memdisp == insn.memdisp && w.imm == insn.imm
  {
  }

  /** Instruction::Build at `loc`: widen, allocate if active, and put the immediate at the end. */
  function BuildInsn<R>(insn: Insn<R>, active: bool, loc: Location): (r: Option<(Insn<R>, Location)>)
  {
    match Widen(insn)
    case None => None
    case Some(w) =>
      var next := loc.Plus(if active then |w.buf| else 0);
      var imm := match w.imm
        case None => None
        case Some(i) => Some(i.(offset := next.offset - 4, vmaddr := next.vmaddr - 4));
      Some((w.(imm := imm), next))
  }

  /** `Build` of one blob with the cursor at `loc`: the built blob and the new cursor. */
  function BuildBlob<R>(b: Blob<R>, word: nat, loc: Location): (r: Option<(Blob<R>, Location)>)
    ensures r.Some? ==>
      && r.value.0.id == b.id && r.value.0.active == b.active
      && r.value.0.Start() == loc
      && r.value.1 == loc.Plus(r.value.0.BuiltSize(word))
  {
    match b.kind
    case Inst(insn) =>
      (match BuildInsn(insn, b.active, loc)
       case None => None
       case Some((i, next)) => Some((b.(loc := loc, kind := Inst(i)), next)))
    case Stub(push, jmp, _, _, bindee) =>
      (match BuildInsn(push, true, loc)
       case None => None
       case Some((p, mid)) =>
         match BuildInsn(jmp, true, mid)
         case None => None
         case Some((j, next)) => Some((b.(kind := Stub(p, j, loc, mid, bindee)), next)))
    case _ =>
      Some((b.(loc := loc), loc.Plus(b.BuiltSize(word))))
  }

  /** Whether `Build` gets past this blob: every branch has a displacement width it can handle. */
  predicate Buildable<R>(b: Blob<R>)
  {
    match b.kind
    case Inst(insn) => Widen(insn).Some?
    case Stub(push, jmp, _, _, _) => Widen(push).Some? && Widen(jmp).Some?
    case _ => true
  }
}
