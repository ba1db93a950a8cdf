/**
 The two processors, for the instructions the translator expands (Intel SDM Volume 2: PUSH, POP, CALL, RET, MOV,
 LEA, JMP, Jcc, INC, DEC). Code addresses of the i386 machine are those of the new layout.
 */
module Machine {
  import opened Wrappers
  import opened Emit
  import opened Decoder

  datatype Flags = Flags(cf: bool, pf: bool, af: bool, zf: bool, sf: bool, of: bool)

  /** Condition codes 0 to 15 in opcode order: odd codes negate even ones. */
  function Cond(cc: nat, f: Flags): bool
  {
    var base :=
      match cc / 2
      case 0 => f.of
      case 1 => f.cf
      case 2 => f.zf
      case 3 => f.cf || f.zf
      case 4 => f.sf
      case 5 => f.pf
      case 6 => f.sf != f.of
      case _ => f.zf || f.sf != f.of;
    if cc % 2 == 0 then base else !base
  }

  function EvenParity(v: nat): bool
  {
    (v % 2 + v / 2 % 2 + v / 4 % 2 + v / 8 % 2 + v / 16 % 2 + v / 32 % 2 + v / 64 % 2 + v / 128 % 2) % 2 == 0
  }

  /** INC and DEC leave the carry flag alone. */
  function IncFlags(old32: uint32, f: Flags): Flags
  {
    var v := (old32 + 1) % TWO_32;
    Flags(f.cf, EvenParity(v % 256), v % 16 == 0, v == 0, v >= 0x8000_0000, v == 0x8000_0000)
  }

  function DecFlags(old32: uint32, f: Flags): Flags
  {
    var v := (old32 - 1) % TWO_32;
    Flags(f.cf, EvenParity(v % 256), v % 16 == 15, v == 0, v >= 0x8000_0000, v == 0x7fff_ffff)
  }

  type Memory = map<int, byte>

  function Read(mem: Memory, a: int): byte
  {
    if a in mem then mem[a] else 0
  }

  /** Little-endian words; `wrap` is the size of the address space. */
  function ReadWord(mem: Memory, a: int, width: nat, wrap: nat): nat
    requires wrap > 0
    decreases width
  {
    if width == 0 then 0 else Read(mem, a % wrap) + 256 * ReadWord(mem, a + 1, width - 1, wrap)
  }

  function WriteWord(mem: Memory, a: int, s: bytes, wrap: nat): Memory
    requires wrap > 0
    decreases |s|
  {
    if s == [] then mem else WriteWord(mem[a % wrap := s[0]], a + 1, s[1..], wrap)
  }

  const ESP: nat := 4

  // ----- i386 -----

  datatype Cpu32 = Cpu32(regs: seq<uint32>, mem: Memory, flags: Flags, pc: uint32) {
    predicate Valid() { |regs| == 8 }
  }

  predicate LowRegs(m: Mem32)
  {
    (m.base.Some? ==> m.base.value < 8) && (m.index.Some? ==> m.index.value < 8)
  }

  /** An i386 instruction with its code addresses already those of the new layout. */
  datatype Op32 =
    | PushReg(r: nat)
    | PushConst(imm: uint32)
    | PopReg(r: nat)
    | CallTo(target: uint32)
    | CallReg(r: nat)
    | Ret
    | Jump(target: uint32)
    | Branch(cc: nat, target: uint32)
    | LoadConst(r: nat, imm: uint32)
    | LoadAddress(r: nat, target: uint32)
    | IncReg(r: nat)
    | DecReg(r: nat)
    | PushMem(m: Mem32)
    | LoadMem(r: nat, m: Mem32)
    | StoreMem(m: Mem32, r: nat)
    | LeaMem(r: nat, m: Mem32)
  {
    predicate Valid() {
      match this
      case PushReg(r) => r < 8
      case PopReg(r) => r < 8
      case CallReg(r) => r < 8
      case Branch(cc, _) => cc < 16
      case LoadConst(r, _) => r < 8
      case LoadAddress(r, _) => r < 8
      case IncReg(r) => r < 8
      case DecReg(r) => r < 8
      case PushMem(m) => LowRegs(m)
      case LoadMem(r, m) => r < 8 && LowRegs(m)
      case StoreMem(m, r) => r < 8 && LowRegs(m)
      case LeaMem(r, m) => r < 8 && LowRegs(m)
      case _ => true
    }
  }

  function Push32(s: Cpu32, v: int): (s': Cpu32)
    requires s.Valid()
    ensures s'.Valid()
  {
    var esp := (s.regs[ESP] - 4) % TWO_32;
    s.(regs := s.regs[ESP := esp], mem := WriteWord(s.mem, esp, Le(4, v), TWO_32))
  }

  function RegOr0(regs: seq<nat>, r: Option<nat>): nat
    requires r.Some? ==> r.value < |regs|
  {
    if r.Some? then regs[r.value] else 0
  }

  /** base + index * scale + displacement, before it is cut to the address size. */
  function Sum32(m: Mem32, s: Cpu32): int
    requires s.Valid() && LowRegs(m)
  {
    RegOr0(s.regs, m.base) + RegOr0(s.regs, m.index) * m.scale + m.disp
  }

  /** The dword at the operand. */
  function Dword32(m: Mem32, s: Cpu32): uint32
    requires s.Valid() && LowRegs(m)
  {
    ReadWord(s.mem, Sum32(m, s), 4, TWO_32) % TWO_32
  }

  function Top32(s: Cpu32): uint32
    requires s.Valid()
  {
    ReadWord(s.mem, s.regs[ESP], 4, TWO_32) % TWO_32
  }

  /** One i386 instruction; `next` is the address of the instruction after it. */
  function Exec32(op: Op32, next: uint32, s: Cpu32): (s': Cpu32)
    requires s.Valid() && op.Valid()
    ensures s'.Valid()
  {
    match op
    case PushReg(r) => Push32(s, s.regs[r]).(pc := next)
    case PushConst(imm) => Push32(s, imm).(pc := next)
    case PopReg(r) => s.(regs := s.regs[ESP := (s.regs[ESP] + 4) % TWO_32][r := Top32(s)], pc := next)
    case CallTo(target) => Push32(s, next).(pc := target)
    case CallReg(r) => Push32(s, next).(pc := s.regs[r])
    case Ret => s.(regs := s.regs[ESP := (s.regs[ESP] + 4) % TWO_32], pc := Top32(s))
    case Jump(target) => s.(pc := target)
    case Branch(cc, target) => s.(pc := if Cond(cc, s.flags) then target else next)
    case LoadConst(r, imm) => s.(regs := s.regs[r := imm], pc := next)
    case LoadAddress(r, target) => s.(regs := s.regs[r := target], pc := next)
    case IncReg(r) => s.(regs := s.regs[r := (s.regs[r] + 1) % TWO_32], flags := IncFlags(s.regs[r], s.flags), pc := next)
    case DecReg(r) => s.(regs := s.regs[r := (s.regs[r] - 1) % TWO_32], flags := DecFlags(s.regs[r], s.flags), pc := next)
    case PushMem(m) => Push32(s, Dword32(m, s)).(pc := next)
    case LoadMem(r, m) => s.(regs := s.regs[r := Dword32(m, s)], pc := next)
    case StoreMem(m, r) => s.(mem := WriteWord(s.mem, Sum32(m, s), Le(4, s.regs[r]), TWO_32), pc := next)
    case LeaMem(r, m) => s.(regs := s.regs[r := Sum32(m, s) % TWO_32], pc := next)
  }

  /** A program: the instruction at each address and the address after it. */
  type Code32 = map<uint32, (Op32, uint32)>

  function Step32(code: Code32, s: Cpu32): Option<Cpu32>
    requires s.Valid()
  {
    if s.pc in code && code[s.pc].0.Valid() then Some(Exec32(code[s.pc].0, code[s.pc].1, s)) else None
  }

  // ----- x86-64 -----

  datatype Cpu64 = Cpu64(regs: seq<uint64>, mem: Memory, flags: Flags, rip: uint64) {
    predicate Valid() { |regs| == 16 }
  }

  predicate MemValid(m: Operand)
  {
    match m
    case Reg(_) => false
    case Based(base, _) => base < 16
    case Indexed(base, index, _, _) => (base.Some? ==> base.value < 16) && (index.Some? ==> index.value < 16)
    case Rip(_) => true
  }

  /** Effective address; rip already points past the instruction. */
  function Address(m: Operand, s: Cpu64): uint64
    requires s.Valid() && MemValid(m)
  {
    match m
    case Based(base, disp) => (s.regs[base] + disp) % TWO_64
    case Indexed(base, index, scale, disp) =>
      (RegOr0(s.regs, base) + RegOr0(s.regs, index) * scale + disp) % TWO_64
    case Rip(disp) => (s.rip + disp) % TWO_64
  }

  predicate OpValid(op: Op)
  {
    match op
    case Push16(r) => r < 16
    case Push64(r) => r < 16
    case PushImm64(_) => true
    case Store32(m, r) => MemValid(m) && r < 16
    case Load32(r, m) => MemValid(m) && r < 16
    case StoreImm32(m, _) => MemValid(m)
    case Lea32(r, m) => MemValid(m) && r < 16
    case Lea64(r, m) => MemValid(m) && r < 16
    case JmpTo(m) => if m.Reg? then m.r < 16 else MemValid(m)
    case JmpBy(_) => true
    case JccBy(cond, _) => cond < 16
    case MovImm32(r, _) => r < 16
    case Inc32(r) => r < 16
    case Dec32(r) => r < 16
  }

  /** The effect of an instruction once rip has moved past it. */
  function Exec64(op: Op, s: Cpu64): (s': Cpu64)
    requires s.Valid() && OpValid(op)
    ensures s'.Valid()
  {
    match op
    case Push16(r) =>
      var rsp := (s.regs[ESP] - 2) % TWO_64;
      s.(regs := s.regs[ESP := rsp], mem := WriteWord(s.mem, rsp, Le(2, s.regs[r]), TWO_64))
    case Push64(r) =>
      var rsp := (s.regs[ESP] - 8) % TWO_64;
      s.(regs := s.regs[ESP := rsp], mem := WriteWord(s.mem, rsp, Le(8, s.regs[r]), TWO_64))
    case PushImm64(imm) =>
      var rsp := (s.regs[ESP] - 8) % TWO_64;
      s.(regs := s.regs[ESP := rsp], mem := WriteWord(s.mem, rsp, Le(8, imm), TWO_64))
    case Store32(m, r) => s.(mem := WriteWord(s.mem, Address(m, s), Le(4, s.regs[r]), TWO_64))
    case Load32(r, m) => s.(regs := s.regs[r := ReadWord(s.mem, Address(m, s), 4, TWO_64) % TWO_32])
    case StoreImm32(m, imm) => s.(mem := WriteWord(s.mem, Address(m, s), Le(4, imm), TWO_64))
    case Lea32(r, m) => s.(regs := s.regs[r := Address(m, s) % TWO_32])
    case Lea64(r, m) => s.(regs := s.regs[r := Address(m, s)])
    case JmpTo(Reg(r)) => s.(rip := s.regs[r])
    case JmpTo(m) => s.(rip := ReadWord(s.mem, Address(m, s), 8, TWO_64) % TWO_64)
    case JmpBy(disp) => s.(rip := (s.rip + disp) % TWO_64)
    case JccBy(cond, disp) => if Cond(cond, s.flags) then s.(rip := (s.rip + disp) % TWO_64) else s
    case MovImm32(r, imm) => s.(regs := s.regs[r := imm])
    case Inc32(r) =>
      var v := s.regs[r] % TWO_32;
      s.(regs := s.regs[r := (v + 1) % TWO_32], flags := IncFlags(v, s.flags))
    case Dec32(r) =>
      var v := s.regs[r] % TWO_32;
      s.(regs := s.regs[r := (v - 1) % TWO_32], flags := DecFlags(v, s.flags))
  }

  /** Code is fetched from `text`, mapped at `base`; it is not part of the data memory. */
  function Step64(text: bytes, base: nat, s: Cpu64): (r: Option<Cpu64>)
    requires s.Valid()
    ensures r.Some? ==> r.value.Valid()
  {
    if !(base <= s.rip <= base + |text|) then None
    else
      match Decode(text[s.rip - base..])
      case None => None
      case Some((op, len)) =>
        if OpValid(op) then Some(Exec64(op, s.(rip := (s.rip + len) % TWO_64))) else None
  }

  function Run64(text: bytes, base: nat, n: nat, s: Cpu64): (r: Option<Cpu64>)
    requires s.Valid()
    ensures r.Some? ==> r.value.Valid()
  {
    if n == 0 then Some(s)
    else
      match Step64(text, base, s)
      case None => None
      case Some(s') => Run64(text, base, n - 1, s')
  }

  lemma {:induction false} RunSum(text: bytes, base: nat, m: nat, n: nat, s: Cpu64)
    requires s.Valid() && Run64(text, base, m, s).Some?
    ensures Run64(text, base, m + n, s) == Run64(text, base, n, Run64(text, base, m, s).value)
  {
    hide Step64;
    if m == 0 {
    } else {
      RunSum(text, base, m - 1, n, Step64(text, base, s).value);
    }
  }

  /** Same flags, memory and program point; the low eight registers zero-extended. The others are scratch. */
  ghost predicate Rel(s: Cpu32, t: Cpu64)
  {
    && s.Valid() && t.Valid()
    && (forall r :: 0 <= r < 8 ==> t.regs[r] == s.regs[r])
    && t.mem == s.mem && t.flags == s.flags && t.rip == s.pc
  }
}
