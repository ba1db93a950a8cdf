/**
 Instruction::Transform and the transforming constructors (src/core/instruction.cc, src/core/section.cc,
 src/core/section_blob.cc, src/core/stub_helper.cc): each i386 blob becomes one or more x86_64 blobs. Pointers
 that the original hands to its resolver still name the i386 object; pointers it sets itself name the new one.
 */
module Translate {
  import opened Wrappers
  import opened Blobs
  import opened Emit
  import opened Opcodes
  import opened Placeholders

  /** A new 64-bit instruction without references. */
  function Plainly(buf: bytes): Insn<Ref>
  {
    Insn(Plain, buf, 0, 0, 0, None, None, None)
  }

  /** A new 64-bit instruction with a rip-relative operand whose displacement starts at `pos`. */
  function Relative(buf: bytes, pos: nat, to: Ref): Insn<Ref>
  {
    Plainly(buf).(dispPos := pos, memdisp := Some(to))
  }

  /** The `k`-th blob made from `from`. */
  function New(from: Ref, k: nat, kind: Kind<Ref>): Blob<Ref>
  {
    Blob(Made(from, k), true, Location(0, 0), kind)
  }

  function Number(from: Ref, k: nat, kinds: seq<Kind<Ref>>): (bs: Content)
    ensures |bs| == |kinds|
    ensures forall i :: 0 <= i < |kinds| ==> bs[i] == New(from, k + i, kinds[i])
    decreases |kinds|
  {
    if kinds == [] then [] else [New(from, k, kinds[0])] + Number(from, k + 1, kinds[1..])
  }

  function PushR32(r: nat): seq<Kind<Ref>>
    requires r < 16
  {
    [Inst(Plainly(PushAx())), Inst(Plainly(PushAx())), Inst(Plainly(MovMemRspR32(r)))]
  }

  function PushImm(imm: uint32): seq<Kind<Ref>>
  {
    [Inst(Plainly(PushAx())), Inst(Plainly(PushAx())), Inst(Plainly(MovMemRspImm(imm)))]
  }

  function PopR32(r: nat): seq<Kind<Ref>>
    requires r < 16
  {
    [Inst(Plainly(MovR32MemRsp(r))), Inst(Plainly(LeaRspRsp4()))]
  }

  /** lea r11, [return point]; push r11d; jmp; return point. The fresh placeholder is blob number 5. */
  function CallOp(from: Ref, jmp: Insn<Ref>): seq<Kind<Ref>>
  {
    [Inst(Relative(LeaR11Rip(), 3, Made(from, 5)))] + PushR32(R11) + [Inst(jmp), Placeholder]
  }

  /** Bit tests and changes on the ModRM byte of a copied instruction. */
  function CallMemToJmp(buf: bytes): Option<bytes>
  {
    if |buf| < 2 || buf[1] / 16 % 4 != 2 then None
    else Some(buf[1 := buf[1] - 0x10])
  }

  function PushMemToMov(buf: bytes): Option<bytes>
  {
    if |buf| < 2 || buf[1] / 32 % 2 != 1 || buf[1] / 8 % 2 != 0 then None
    else Some([0x44, 0x8b] + [buf[1] - 0x20 + 0x08] + buf[2..])
  }

  /** The copying constructor: an immediate is carried over only if it is not a pointer. */
  function CopyInsn(insn: Insn<Ref>): Result<Insn<Ref>>
  {
    if insn.imm.Some? && insn.imm.value.pointee.Some? then Err(Unsupported) else Ok(insn)
  }

  /** The forms Transform rewrites; every other instruction is copied. */
  predicate Rewritten(iform: Iform)
  {
    match iform
    case PushGpr | PopGpr | CallGpr | CallMem | CallRelZ | CallRelD | RetNear | IncGpr | DecGpr | PushMem
       | PushImmB | PushImmZ => true
    case _ => false
  }

  /** Instruction::Transform. `stubs` says whether the section is __symbol_stub or __stub_helper. */
  function TransformInsn(from: Ref, insn: Insn<Ref>, stubs: bool): Result<seq<Kind<Ref>>>
  {
    if insn.imm.Some? && insn.imm.value.pointee.Some? then
      var pointee := insn.imm.value.pointee.value;
      match insn.iform
      case PushImmZ =>
        if stubs then Ok([Inst(Relative(LeaR11Rip(), 3, pointee)), Inst(Plainly(PushR11()))]) else Err(Unsupported)
      case MovGprImm =>
        if insn.reg0 < 8 then Ok([Inst(Relative(LeaR32Rip(insn.reg0), 2, pointee))]) else Err(Unsupported)
      case JmpMem =>
        if stubs then Ok([Inst(Relative(JmpMemRip(), 2, pointee))]) else Err(Unsupported)
      case _ => Err(Unsupported)
    else
      match insn.iform
      case PushGpr => if insn.reg0 < 16 then Ok(PushR32(insn.reg0)) else Err(Unsupported)
      case PopGpr => if insn.reg0 < 16 then Ok(PopR32(insn.reg0)) else Err(Unsupported)
      case CallGpr =>
        if insn.reg0 < 16 then Ok(CallOp(from, Plainly(JmpR64(insn.reg0)))) else Err(Unsupported)
      case CallMem =>
        (match CallMemToJmp(insn.buf)
         case None => Err(Unsupported)
         case Some(buf) =>
           Ok(CallOp(from, Plainly(buf).(dispPos := insn.dispPos, memdisp := insn.memdisp, brdisp := insn.brdisp))))
      case CallRelZ =>
        Ok(CallOp(from, Plainly(JmpRel32()).(iform := JmpRelZ, memdisp := insn.memdisp, brdisp := insn.brdisp)))
      case CallRelD => Err(Unsupported)
      case RetNear => Ok(PopR32(R11) + [Inst(Plainly(JmpR64(R11)))])
      case IncGpr => if insn.reg0 < 8 then Ok([Inst(Plainly(IncR32(insn.reg0)))]) else Err(Unsupported)
      case DecGpr => if insn.reg0 < 8 then Ok([Inst(Plainly(DecR32(insn.reg0)))]) else Err(Unsupported)
      case PushMem =>
        (match PushMemToMov(insn.buf)
         case None => Err(Unsupported)
         case Some(buf) => Ok([Inst(Plainly(buf))] + PushR32(R11)))
      case PushImmB => Ok(PushImm(insn.operand))
      case PushImmZ => Ok(PushImm(insn.operand))
      case _ => Ok([Inst(insn)])
  }

  /** The assertion on a call through memory can never hold: opcode extension 2 is what makes it a call. */
  lemma {:induction false} CallMemRejected(from: Ref, insn: Insn<Ref>, stubs: bool)
    requires insn.iform.CallMem? && |insn.buf| >= 2 && insn.buf[1] / 8 % 8 == 2
    ensures TransformInsn(from, insn, stubs) == Err(Unsupported)
  {
    assert insn.buf[1] / 16 % 4 == 1;
    hide CallOp;
  }

  /** An immediate that is an address of the input can be kept in three forms, two of them in stub sections only. */
  predicate KeepsAddress(insn: Insn<Ref>, stubs: bool)
  {
    match insn.iform
    case MovGprImm => insn.reg0 < 8
    case PushImmZ => stubs
    case JmpMem => stubs
    case _ => false
  }

  /** Exactly what cannot be translated, for the registers and encodings that exist on i386. */
  lemma {:induction false} RejectedIff(from: Ref, insn: Insn<Ref>, stubs: bool)
    requires insn.reg0 < 8
    requires insn.iform.CallMem? ==> |insn.buf| >= 2 && insn.buf[0] == 0xff && insn.buf[1] / 8 % 8 == 2
    requires insn.iform.PushMem? ==> |insn.buf| >= 2 && insn.buf[0] == 0xff && insn.buf[1] / 8 % 8 == 6
    ensures TransformInsn(from, insn, stubs).Err? <==>
            if insn.imm.Some? && insn.imm.value.pointee.Some? then !KeepsAddress(insn, stubs)
            else insn.iform.CallMem? || insn.iform.CallRelD?
  {
    hide CallOp, PushR32, PopR32, PushImm, Plainly, Relative, IncR32, DecR32, JmpR64, LeaR32Rip;
    if insn.iform.CallMem? && !(insn.imm.Some? && insn.imm.value.pointee.Some?) {
      CallMemRejected(from, insn, stubs);
    } else if insn.iform.PushMem? {
      assert insn.buf[1] / 32 % 2 == 1 && insn.buf[1] / 8 % 2 == 0;
    }
  }

  /** What one blob becomes. */
  function Kinds(b: Blob<Ref>, stubs: bool): Result<seq<Kind<Ref>>>
  {
    match b.kind
    case Inst(insn) => TransformInsn(b.id, insn, stubs)
    case Stub(push, jmp, _, _, bindee) =>
      (match CopyInsn(push)
       case Err(reason) => Err(reason)
       case Ok(p) =>
         match CopyInsn(jmp)
         case Err(reason) => Err(reason)
         case Ok(j) => Ok([Stub(p, j, Location(0, 0), Location(0, 0), bindee)]))
    case _ => Ok([b.kind])
  }

  function Expand(b: Blob<Ref>, stubs: bool): (r: Result<Content>)
    ensures r.Ok? ==> |r.value| > 0
  {
    match Kinds(b, stubs)
    case Err(reason) => Err(reason)
    case Ok(kinds) => Ok(Number(b.id, 0, kinds))
  }

  /** The transforming constructor of Section: every blob in order. */
  function ExpandAll(content: Content, stubs: bool): Result<Content>
  {
    if content == [] then Ok([])
    else
      match Expand(content[0], stubs)
      case Err(reason) => Err(reason)
      case Ok(first) =>
        Prefixed(first, ExpandAll(content[1..], stubs))
  }
}
