/**
 A decoder for the 64-bit instructions the translator emits, written from the opcode and ModRM tables of Intel
 SDM Volume 2 (chapter 2 and appendix A) and independent of module Opcodes.
 */
module Decoder {
  import opened Wrappers
  import opened Emit

  /** `Based` is a memory operand without index register; `Rip` is relative to the end of the instruction. */
  datatype Operand =
    | Reg(r: nat)
    | Based(base: nat, disp: int)
    | Indexed(first: Option<nat>, index: Option<nat>, scale: nat, disp: int)
    | Rip(disp: int)

  datatype Op =
    | Push16(r: nat)                       // two bytes
    | Push64(r: nat)
    | PushImm64(num: int)                  // sign-extended to eight bytes
    | Store32(m: Operand, r: nat)          // mov m32, r32
    | Load32(r: nat, m: Operand)           // mov r32, m32
    | StoreImm32(m: Operand, imm: uint32)  // mov m32, imm32
    | Lea32(r: nat, m: Operand)
    | Lea64(r: nat, m: Operand)
    | JmpTo(m: Operand)
    | JmpBy(disp: int)
    | JccBy(cond: nat, disp: int)
    | MovImm32(r: nat, imm: uint32)
    | Inc32(r: nat)
    | Dec32(r: nat)

  /** REX fields: W, R and B; X must be clear because no index register is decoded. */
  datatype Rex = Rex(w: bool, r: bool, b: bool)

  function Ext(high: bool, low: nat): nat
  {
    (if high then 8 else 0) + low
  }

  function Signed8(b: byte): int
  {
    if b < 128 then b else b - 256
  }

  /** Mod, reg and rm fields of a ModRM byte, with SIB and displacement: register field, operand, length. */
  function ModRm(s: bytes, rex: Rex): Option<(nat, Operand, nat)>
  {
    if s == [] then None
    else
      var mod, reg, rm := s[0] / 64, Ext(rex.r, s[0] / 8 % 8), s[0] % 8;
      if mod == 3 then Some((reg, Reg(Ext(rex.b, rm)), 1))
      else if mod == 0 && rm == 5 then
        if |s| < 5 then None else Some((reg, Rip(Signed32(s[1..5])), 5))
      else if rm == 4 then
        if |s| < 2 then None
        else
          match Displacement(s[2..], if mod == 0 && s[1] % 8 == 5 then 2 else mod)
          case None => None
          case Some((disp, len)) => Some((reg, Sib(s[1], mod, rex.b, disp), 2 + len))
      else
        match Displacement(s[1..], mod)
        case None => None
        case Some((disp, len)) => Some((reg, Based(Ext(rex.b, rm), disp), 1 + len))
  }

  /** Scale, index and base of a SIB byte: index 4 is none, base 5 without displacement is none. */
  function Sib(b: byte, mod: nat, high: bool, disp: int): Operand
  {
    var base := if mod == 0 && b % 8 == 5 then None else Some(Ext(high, b % 8));
    if b / 8 % 8 == 4 && base.Some? then Based(base.value, disp)
    else Indexed(base, if b / 8 % 8 == 4 then None else Some(b / 8 % 8), Scale(b / 64), disp)
  }

  function Scale(ss: nat): nat
  {
    match ss
    case 0 => 1
    case 1 => 2
    case 2 => 4
    case _ => 8
  }

  function Displacement(s: bytes, mod: nat): Option<(int, nat)>
  {
    if mod == 0 then Some((0, 0))
    else if mod == 1 then if |s| < 1 then None else Some((Signed8(s[0]), 1))
    else if |s| < 4 then None else Some((Signed32(s[..4]), 4))
  }

  function Imm32(s: bytes): uint32
  {
    FromLe(s) % TWO_32
  }

  /** Opcode and operands after the prefixes: operation and length. */
  function Body(s: bytes, rex: Rex, wide16: bool): Option<(Op, nat)>
  {
    if s == [] then None
    else
      var op := s[0];
      if 0x50 <= op < 0x58 then
        var r := Ext(rex.b, op - 0x50);
        Some((if wide16 then Push16(r) else Push64(r), 1))
      else if wide16 then None
      else if 0xb8 <= op < 0xc0 && !rex.w then
        if |s| < 5 then None else Some((MovImm32(Ext(rex.b, op - 0xb8), Imm32(s[1..5])), 5))
      else if op == 0x68 && !rex.w then
        if |s| < 5 then None else Some((PushImm64(Signed32(s[1..5])), 5))
      else if op == 0xe9 then
        if |s| < 5 then None else Some((JmpBy(Signed32(s[1..5])), 5))
      else if op == 0x0f then
        if |s| < 6 || s[1] / 16 != 8 then None else Some((JccBy(s[1] % 16, Signed32(s[2..6])), 6))
      else
        match ModRm(s[1..], rex)
        case None => None
        case Some((reg, m, len)) =>
          if op == 0x89 && !m.Reg? && !rex.w then Some((Store32(m, reg), 1 + len))
          else if op == 0x8b && !m.Reg? && !rex.w then Some((Load32(reg, m), 1 + len))
          else if op == 0x8d && !m.Reg? then Some((if rex.w then Lea64(reg, m) else Lea32(reg, m), 1 + len))
          else if op == 0xc7 && reg % 8 == 0 && !m.Reg? && !rex.w then
            if |s| < 5 + len then None else Some((StoreImm32(m, Imm32(s[1 + len..5 + len])), 5 + len))
          else if op == 0xff && reg % 8 == 4 then Some((JmpTo(m), 1 + len))
          else if op == 0xff && reg % 8 == 0 && m.Reg? && !rex.w then Some((Inc32(m.r), 1 + len))
          else if op == 0xff && reg % 8 == 1 && m.Reg? && !rex.w then Some((Dec32(m.r), 1 + len))
          else None
  }

  function Decode(s: bytes): Option<(Op, nat)>
  {
    if s != [] && s[0] == 0x66 then
      match Body(s[1..], Rex(false, false, false), true)
      case None => None
      case Some((op, len)) => Some((op, 1 + len))
    else if s != [] && s[0] / 16 == 4 && s[0] / 2 % 2 == 0 then
      match Body(s[1..], Rex(s[0] / 8 % 2 == 1, s[0] / 4 % 2 == 1, s[0] % 2 == 1), false)
      case None => None
      case Some((op, len)) => Some((op, 1 + len))
    else
      Body(s, Rex(false, false, false), false)
  }

  // ----- i386 memory operands (32-bit addressing forms, section 2.1.5) -----

  /** base + index * scale + displacement. */
  datatype Mem32 = Mem32(base: Option<nat>, index: Option<nat>, scale: nat, disp: int)

  /** Register field, operand and length of the bytes behind an opcode; `None` for a register operand. */
  function ModRm32(s: bytes): Option<(nat, Mem32, nat)>
  {
    if s == [] || s[0] / 64 == 3 then None
    else
      var mod, reg, rm := s[0] / 64, s[0] / 8 % 8, s[0] % 8;
      if rm == 4 then
        if |s| < 2 then None
        else
          var scale, index, base := s[1] / 64, s[1] / 8 % 8, s[1] % 8;
          var absolute := mod == 0 && base == 5;
          match Displacement(s[2..], if absolute then 2 else mod)
          case None => None
          case Some((disp, len)) =>
            Some((reg, Mem32(if absolute then None else Some(base), if index == 4 then None else Some(index),
                             Scale(scale), disp), 2 + len))
      else
        var absolute := mod == 0 && rm == 5;
        match Displacement(s[1..], if absolute then 2 else mod)
        case None => None
        case Some((disp, len)) => Some((reg, Mem32(if absolute then None else Some(rm), None, 1, disp), 1 + len))
  }

  /** The operand of `push m32`: opcode ff with 6 in the register field. */
  function PushOperand(s: bytes): Option<Mem32>
  {
    if s == [] || s[0] != 0xff then None
    else
      match ModRm32(s[1..])
      case None => None
      case Some((reg, m, len)) => if reg == 6 && 1 + len == |s| then Some(m) else None
  }

  /** Register and memory operand behind a one-byte opcode. */
  function RegMem(s: bytes, opcode: byte): Option<(nat, Mem32)>
  {
    if s == [] || s[0] != opcode then None
    else
      match ModRm32(s[1..])
      case None => None
      case Some((reg, m, len)) => if 1 + len == |s| then Some((reg, m)) else None
  }

  /** The ModRM byte of an absolute address, which is relative to rip in the 64-bit forms. */
  predicate Absolute(modrm: byte)
  {
    modrm / 64 == 0 && modrm % 8 == 5
  }

  /** The same operand in the 64-bit forms. */
  function Widened(m: Mem32): Operand
  {
    if m.base.Some? && m.index.None? then Based(m.base.value, m.disp) else Indexed(m.base, m.index, m.scale, m.disp)
  }
}
