/**
 Each expansion simulates the i386 instruction it replaces: run on the emitted bytes, it leaves every low register,
 every memory byte, the flags and the next program point as the original would.
 */
module Simulate {
  import opened Wrappers
  import opened Emit
  import opened Machine
  import opened Decoder
  import Opcodes
  import opened OpcodesProof

  const R11: nat := 11

  // ----- words in memory -----

  lemma {:induction false} LeFour(v: int)
    ensures Le(4, v) == [v % 256, v / 256 % 256, v / 256 / 256 % 256, v / 256 / 256 / 256 % 256]
  {
    assert Le(1, v / 256 / 256 / 256) == [v / 256 / 256 / 256 % 256] + Le(0, v / 256 / 256 / 256 / 256);
    assert Le(2, v / 256 / 256) == [v / 256 / 256 % 256] + Le(1, v / 256 / 256 / 256);
    assert Le(3, v / 256) == [v / 256 % 256] + Le(2, v / 256 / 256);
  }

  lemma {:induction false} WriteStep(mem: Memory, a: int, s: bytes, wrap: nat)
    requires s != [] && 0 <= a < wrap
    ensures WriteWord(mem, a, s, wrap) == WriteWord(mem[a := s[0]], a + 1, s[1..], wrap)
  {
    assert a % wrap == a by { Small(a, wrap); }
  }

  lemma {:induction false} Small(a: int, m: int)
    requires 0 <= a < m
    ensures a % m == a
  {
  }

  lemma {:induction false} WriteTwo(mem: Memory, a: int, s: bytes, wrap: nat)
    requires |s| == 2 && 0 <= a && a + 2 <= wrap
    ensures WriteWord(mem, a, s, wrap) == mem[a := s[0]][a + 1 := s[1]]
  {
    WriteStep(mem, a, s, wrap);
    WriteStep(mem[a := s[0]], a + 1, s[1..], wrap);
    assert s[1..][1..] == [];
    WriteNone(mem[a := s[0]][a + 1 := s[1]], a + 2, wrap);
    hide *;
  }

  lemma {:induction false} WriteNone(mem: Memory, a: int, wrap: nat)
    requires wrap > 0
    ensures WriteWord(mem, a, [], wrap) == mem
  {
  }

  lemma {:induction false} WriteFour(mem: Memory, a: int, s: bytes, wrap: nat)
    requires |s| == 4 && 0 <= a && a + 4 <= wrap
    ensures WriteWord(mem, a, s, wrap) == mem[a := s[0]][a + 1 := s[1]][a + 2 := s[2]][a + 3 := s[3]]
  {
    hide *;
    WriteStep(mem, a, s, wrap);
    WriteStep(mem[a := s[0]], a + 1, s[1..], wrap);
    assert s[1..][1..] == s[2..];
    WriteTwo(mem[a := s[0]][a + 1 := s[1]], a + 2, s[2..], wrap);
  }

  /** Two scratch words written below the stack pointer vanish under the dword that replaces them. */
  lemma {:induction false} ScratchVanishes(mem: Memory, a: int, x: bytes, y: bytes, s: bytes)
    requires |x| == |y| == 2 && |s| == 4 && 0 <= a && a + 4 <= TWO_32
    ensures WriteWord(WriteWord(WriteWord(mem, a + 2, x, TWO_64), a, y, TWO_64), a, s, TWO_64) ==
            WriteWord(mem, a, s, TWO_32)
  {
    WriteTwo(mem, a + 2, x, TWO_64);
    var m1 := mem[a + 2 := x[0]][a + 2 + 1 := x[1]];
    WriteTwo(m1, a, y, TWO_64);
    var m2 := m1[a := y[0]][a + 1 := y[1]];
    WriteFour(m2, a, s, TWO_64);
    WriteFour(mem, a, s, TWO_32);
    hide *;
    assert m2[a := s[0]][a + 1 := s[1]][a + 2 := s[2]][a + 3 := s[3]] ==
           mem[a := s[0]][a + 1 := s[1]][a + 2 := s[2]][a + 3 := s[3]];
  }

  lemma {:induction false} ReadSame(mem: Memory, a: int, width: nat)
    requires 0 <= a && a + width <= TWO_32
    ensures ReadWord(mem, a, width, TWO_32) == ReadWord(mem, a, width, TWO_64)
    decreases width
  {
    if width == 0 {
    } else {
      ReadSame(mem, a + 1, width - 1);
    }
  }

  // ----- one step -----

  /** The bytes `s` stand at address `addr` of the mapped text. */
  predicate CodeAt(text: bytes, base: nat, addr: nat, s: bytes)
  {
    base <= addr && addr - base + |s| <= |text| && text[addr - base..addr - base + |s|] == s
  }

  lemma {:induction false} CodeAtSplit(text: bytes, base: nat, addr: nat, a: bytes, b: bytes)
    requires CodeAt(text, base, addr, a + b)
    ensures CodeAt(text, base, addr, a) && CodeAt(text, base, addr + |a|, b)
  {
    var lo := addr - base;
    assert text[lo..lo + |a|] == text[lo..lo + |a + b|][..|a|];
    assert text[lo + |a|..lo + |a| + |b|] == text[lo..lo + |a + b|][|a|..];
  }

  lemma {:induction false} StepAt(text: bytes, base: nat, s: bytes, op: Op, t: Cpu64)
    requires t.Valid() && OpValid(op) && Encodes(s, op) && CodeAt(text, base, t.rip, s)
    requires t.rip + |s| < TWO_64
    ensures Step64(text, base, t) == Some(Exec64(op, t.(rip := t.rip + |s|)))
  {
    hide Decode, Exec64, OpValid;
    var rest := text[t.rip - base..];
    assert rest[..|s|] == text[t.rip - base..t.rip - base + |s|];
    assert s <= rest;
    assert Decode(rest) == Some((op, |s|));
  }

  // ----- the expansions -----

  function PushCode(store: bytes): bytes
  {
    Opcodes.PushAx() + Opcodes.PushAx() + store
  }

  function PopCode(r: nat): bytes
    requires r < 16
  {
    Opcodes.MovR32MemRsp(r) + Opcodes.LeaRspRsp4()
  }

  /** lea r11, [next]; push r11d; jump. */
  ghost predicate IsCall(text: bytes, base: nat, addr: nat, f: bytes, jump: bytes, next: uint32)
  {
    && |f| == 4
    && CodeAt(text, base, addr, Opcodes.LeaR11Rip()[..3] + f + PushCode(Opcodes.MovMemRspR32(R11)) + jump)
    && next == addr + 7 + |PushCode(Opcodes.MovMemRspR32(R11))| + |jump|
    && addr + 7 + Signed32(f) == next
  }

  /** `code` stands at `addr` and ends at `next`. */
  predicate PlainAt(text: bytes, base: nat, addr: nat, code: bytes, next: uint32)
  {
    CodeAt(text, base, addr, code) && next == addr + |code|
  }

  /** `opcode` and a 32-bit displacement from `next` that leads to `target`. */
  ghost predicate RelativeAt(text: bytes, base: nat, addr: nat, opcode: bytes, target: uint32, next: uint32)
  {
    exists g :: |g| == 4 && PlainAt(text, base, addr, opcode + g, next) && next + Signed32(g) == target
  }

  ghost predicate CallRegAt(text: bytes, base: nat, addr: nat, r: nat, next: uint32)
    requires r < 8
  {
    exists f :: IsCall(text, base, addr, f, Opcodes.JmpR64(r), next)
  }

  ghost predicate CallToAt(text: bytes, base: nat, addr: nat, target: uint32, next: uint32)
  {
    exists f, g :: IsCall(text, base, addr, f, [0xe9] + g, next) && |g| == 4 && next + Signed32(g) == target
  }

  /** A load of the operand into r11, whatever its encoding, and the push of r11. */
  ghost predicate PushMemAt(text: bytes, base: nat, addr: nat, m: Mem32, next: uint32)
  {
    exists load :: Encodes(load, Load32(R11, Widened(m))) &&
      PlainAt(text, base, addr, load + PushCode(Opcodes.MovMemRspR32(R11)), next)
  }

  /** Bytes that are the 64-bit instruction `op`, whatever its encoding. */
  ghost predicate EncodedAt(text: bytes, base: nat, addr: nat, op: Op, next: uint32)
  {
    exists code :: Encodes(code, op) && PlainAt(text, base, addr, code, next)
  }

  /** What stands at `addr` for each i386 instruction, and that its displacements lead where they should. */
  ghost predicate Implements(text: bytes, base: nat, addr: nat, op: Op32, next: uint32)
  {
    op.Valid() &&
    match op
    case PushReg(r) => PlainAt(text, base, addr, PushCode(Opcodes.MovMemRspR32(r)), next)
    case PushConst(imm) => PlainAt(text, base, addr, PushCode(Opcodes.MovMemRspImm(imm)), next)
    case PopReg(r) => PlainAt(text, base, addr, PopCode(r), next)
    case CallTo(target) => CallToAt(text, base, addr, target, next)
    case CallReg(r) => CallRegAt(text, base, addr, r, next)
    case Ret => PlainAt(text, base, addr, PopCode(R11) + Opcodes.JmpR64(R11), next)
    case Jump(target) => RelativeAt(text, base, addr, [0xe9], target, next)
    case Branch(cc, target) => RelativeAt(text, base, addr, [0x0f, 0x80 + cc], target, next)
    case LoadConst(r, imm) => PlainAt(text, base, addr, Opcodes.MovR32Imm(r, imm), next)
    case LoadAddress(r, target) => RelativeAt(text, base, addr, Opcodes.LeaR32Rip(r)[..2], target, next)
    case IncReg(r) => PlainAt(text, base, addr, Opcodes.IncR32(r), next)
    case DecReg(r) => PlainAt(text, base, addr, Opcodes.DecR32(r), next)
    case PushMem(m) => PushMemAt(text, base, addr, m, next)
    case LoadMem(r, m) => EncodedAt(text, base, addr, Load32(r, Widened(m)), next)
    case StoreMem(m, r) => EncodedAt(text, base, addr, Store32(Widened(m), r), next)
    case LeaMem(r, m) => EncodedAt(text, base, addr, Lea32(r, Widened(m)), next)
  }

  /** The operand lies in the lower 4 GiB without wrapping around. */
  predicate Inside(m: Mem32, s: Cpu32)
    requires s.Valid() && LowRegs(m)
  {
    0 <= Sum32(m, s) && Sum32(m, s) + 4 <= TWO_32
  }

  /**
   The conditions under which an i386 instruction and its expansion agree. Module SimulateExact shows that they are
   exact, but for one state of a wrapping pop into esp and for a wrapping operand with the same effect at both addresses.
   */
  predicate Safe(op: Op32, s: Cpu32)
    requires s.Valid() && op.Valid()
  {
    match op
    case PushReg(r) => r != ESP && s.regs[ESP] >= 4
    case PushConst(_) => s.regs[ESP] >= 4
    case PopReg(r) => r != ESP && s.regs[ESP] + 4 < TWO_32
    case CallTo(_) => s.regs[ESP] >= 4
    case CallReg(r) => r != ESP && s.regs[ESP] >= 4
    case Ret => s.regs[ESP] + 4 < TWO_32
    case PushMem(m) => s.regs[ESP] >= 4 && Inside(m, s)
    case LoadMem(_, m) => Inside(m, s)
    case StoreMem(m, _) => Inside(m, s)
    case _ => true
  }

  /** A store of the dword `s` through the stack pointer. */
  predicate Stores(op: Op, t: Cpu64, s: bytes)
    requires t.Valid()
  {
    match op
    case Store32(m, r) => m == Based(ESP, 0) && r < 16 && r != ESP && Le(4, t.regs[r]) == s
    case StoreImm32(m, imm) => m == Based(ESP, 0) && Le(4, imm) == s
    case _ => false
  }

  /** State after a scratch push. */
  function Pushed(t: Cpu64): Cpu64
    requires t.Valid() && 2 <= t.regs[ESP] && t.rip + 2 < TWO_64
  {
    t.(regs := t.regs[ESP := t.regs[ESP] - 2],
       mem := WriteWord(t.mem, t.regs[ESP] - 2, Le(2, t.regs[0]), TWO_64), rip := t.rip + 2)
  }

  lemma {:induction false} ScratchPush(text: bytes, base: nat, t: Cpu64)
    requires t.Valid() && 2 <= t.regs[ESP] && t.rip + 2 < TWO_64
    requires CodeAt(text, base, t.rip, Opcodes.PushAx())
    ensures Step64(text, base, t) == Some(Pushed(t))
  {
    PushAxDecodes();
    StepAt(text, base, Opcodes.PushAx(), Push16(0), t);
    hide WriteWord, Le, Step64, CodeAt;
  }

  lemma {:induction false} ExecStore(t: Cpu64, op: Op, s: bytes)
    requires t.Valid() && Stores(op, t, s)
    ensures OpValid(op) && Exec64(op, t) == t.(mem := WriteWord(t.mem, t.regs[ESP], s, TWO_64))
  {
    hide WriteWord, Le;
    assert (t.regs[ESP] + 0) % TWO_64 == t.regs[ESP];
  }

  lemma {:induction false} StoresMoved(t: Cpu64, t': Cpu64, op: Op, s: bytes)
    requires t.Valid() && t'.Valid() && Stores(op, t, s)
    requires forall r :: 0 <= r < 16 && r != ESP ==> t'.regs[r] == t.regs[r]
    ensures Stores(op, t', s)
  {
    hide Le;
  }

  lemma {:induction false} StoreStep(text: bytes, base: nat, t: Cpu64, store: bytes, op: Op, s: bytes)
    requires t.Valid() && CodeAt(text, base, t.rip, store) && t.rip + |store| < TWO_64
    requires Encodes(store, op) && Stores(op, t, s)
    ensures Step64(text, base, t) ==
            Some(t.(mem := WriteWord(t.mem, t.regs[ESP], s, TWO_64), rip := t.rip + |store|))
  {
    var t' := t.(rip := t.rip + |store|);
    StoresMoved(t, t', op, s);
    hide *;
    ExecStore(t', op, s);
    StepAt(text, base, store, op, t);
  }

  lemma {:induction false} TwicePushed(t: Cpu64, s: bytes)
    requires t.Valid() && 4 <= t.regs[ESP] < TWO_32 && t.rip + 4 < TWO_64 && |s| == 4
    ensures Pushed(t).Valid() && Pushed(Pushed(t)).Valid()
    ensures Pushed(Pushed(t)).regs == t.regs[ESP := t.regs[ESP] - 4]
    ensures Pushed(Pushed(t)).rip == t.rip + 4 && Pushed(Pushed(t)).flags == t.flags
    ensures WriteWord(Pushed(Pushed(t)).mem, t.regs[ESP] - 4, s, TWO_64) ==
            WriteWord(t.mem, t.regs[ESP] - 4, s, TWO_32)
  {
    hide WriteWord, Le;
    ScratchVanishes(t.mem, t.regs[ESP] - 4, Le(2, t.regs[0]), Le(2, Pushed(t).regs[0]), s);
    assert t.regs[ESP] - 4 + 2 == t.regs[ESP] - 2;
  }

  /** A 32-bit push done by `len` bytes of code. */
  function AfterPush(t: Cpu64, v: int, len: nat): (t': Cpu64)
    requires t.Valid() && 4 <= t.regs[ESP] && t.rip + len < TWO_64
    ensures t'.Valid() && t'.rip == t.rip + len
  {
    t.(regs := t.regs[ESP := t.regs[ESP] - 4], mem := WriteWord(t.mem, t.regs[ESP] - 4, Le(4, v), TWO_32),
       rip := t.rip + len)
  }

  /** A 32-bit pop into register `r` done by `len` bytes of code. */
  function AfterPop(t: Cpu64, r: nat, len: nat): (t': Cpu64)
    requires t.Valid() && r < 16 && t.regs[ESP] + 4 < TWO_32 && t.rip + len < TWO_64
    ensures t'.Valid() && t'.rip == t.rip + len
  {
    t.(regs := t.regs[r := ReadWord(t.mem, t.regs[ESP], 4, TWO_32) % TWO_32][ESP := t.regs[ESP] + 4],
       rip := t.rip + len)
  }

  lemma {:induction false} PushedFacts(t: Cpu64)
    requires t.Valid() && 2 <= t.regs[ESP] < TWO_32 && t.rip + 2 < TWO_64
    ensures Pushed(t).Valid() && |Pushed(t).regs| == |t.regs| == 16 && Pushed(t).regs[ESP] == t.regs[ESP] - 2
    ensures Pushed(t).rip == t.rip + 2
  {
    hide WriteWord, Le;
  }

  lemma {:induction false} PushCodeIs(store: bytes)
    ensures |Opcodes.PushAx()| == 2
    ensures PushCode(store) == Opcodes.PushAx() + Opcodes.PushAx() + store && |PushCode(store)| == 4 + |store|
  {
  }

  lemma {:induction false} SixteenRegs(t: Cpu64)
    requires t.Valid()
    ensures |t.regs| == 16 && TWO_32 < TWO_64
  {
  }

  lemma {:induction false} ScratchPushes(text: bytes, base: nat, t: Cpu64, store: bytes)
    requires t.Valid() && 4 <= t.regs[ESP] < TWO_32
    requires CodeAt(text, base, t.rip, PushCode(store)) && t.rip + |PushCode(store)| < TWO_64
    ensures t.rip + 4 < TWO_64 && |PushCode(store)| == 4 + |store|
    ensures Pushed(t).Valid() && 2 <= Pushed(t).regs[ESP] && Pushed(t).rip == t.rip + 2
    ensures Step64(text, base, t) == Some(Pushed(t)) && Step64(text, base, Pushed(t)) == Some(Pushed(Pushed(t)))
    ensures Pushed(Pushed(t)).Valid() && CodeAt(text, base, Pushed(Pushed(t)).rip, store)
  {
    hide *;
    SixteenRegs(t);
    var push := Opcodes.PushAx();
    PushCodeIs(store);
    CodeAtSplit(text, base, t.rip, push + push, store);
    CodeAtSplit(text, base, t.rip, push, push);
    PushedFacts(t);
    PushedFacts(Pushed(t));
    ScratchPush(text, base, t);
    ScratchPush(text, base, Pushed(t));
  }

  /** The two scratch pushes and the store together are one 32-bit push. */
  lemma {:induction false} PushRuns(text: bytes, base: nat, t: Cpu64, store: bytes, op: Op, v: int)
    requires t.Valid() && 4 <= t.regs[ESP] < TWO_32
    requires CodeAt(text, base, t.rip, PushCode(store)) && t.rip + |PushCode(store)| < TWO_64
    requires Encodes(store, op) && Stores(op, t, Le(4, v))
    ensures Run64(text, base, 3, t) == Some(AfterPush(t, v, |PushCode(store)|))
  {
    hide WriteWord, Le, Step64, CodeAt, Encodes, Stores, Pushed, PushCode, Run64;
    ScratchPushes(text, base, t, store);
    TwicePushed(t, Le(4, v));
    var t2 := Pushed(Pushed(t));
    StoresMoved(t, t2, op, Le(4, v));
    StoreStep(text, base, t2, store, op, Le(4, v));
    ThreeSteps(text, base, t, Pushed(t), t2, Step64(text, base, t2).value);
  }

  lemma {:induction false} OneStep(text: bytes, base: nat, t: Cpu64, t1: Cpu64)
    requires t.Valid() && Step64(text, base, t) == Some(t1)
    ensures Run64(text, base, 1, t) == Some(t1)
  {
    assert Run64(text, base, 0, t1) == Some(t1);
  }

  lemma {:induction false} TwoSteps(text: bytes, base: nat, t: Cpu64, t1: Cpu64, t2: Cpu64)
    requires t.Valid() && Step64(text, base, t) == Some(t1) && t1.Valid() && Step64(text, base, t1) == Some(t2)
    ensures Run64(text, base, 2, t) == Some(t2)
  {
    hide Step64;
    assert Run64(text, base, 0, t2) == Some(t2);
    assert Run64(text, base, 1, t1) == Some(t2);
  }

  lemma {:induction false} ThreeSteps(text: bytes, base: nat, t: Cpu64, t1: Cpu64, t2: Cpu64, t3: Cpu64)
    requires t.Valid() && Step64(text, base, t) == Some(t1) && t1.Valid() && Step64(text, base, t1) == Some(t2)
    requires t2.Valid() && Step64(text, base, t2) == Some(t3)
    ensures Run64(text, base, 3, t) == Some(t3)
  {
    hide Step64;
    TwoSteps(text, base, t1, t2, t3);
    assert Run64(text, base, 3, t) == Run64(text, base, 2, t1);
  }

  lemma {:induction false} ExecPop(t: Cpu64, r: nat)
    requires t.Valid() && r < 16 && t.regs[ESP] + 4 < TWO_32
    ensures Exec64(Load32(r, Based(ESP, 0)), t) ==
            t.(regs := t.regs[r := ReadWord(t.mem, t.regs[ESP], 4, TWO_32) % TWO_32])
    ensures Exec64(Lea64(ESP, Based(ESP, 4)), t) == t.(regs := t.regs[ESP := t.regs[ESP] + 4])
  {
    ReadSame(t.mem, t.regs[ESP], 4);
    hide ReadWord;
    assert (t.regs[ESP] + 0) % TWO_64 == t.regs[ESP];
    assert (t.regs[ESP] + 4) % TWO_64 == t.regs[ESP] + 4;
  }

  /** After the load of a pop. */
  function AfterLoad(t: Cpu64, r: nat): (t': Cpu64)
    requires t.Valid() && r < 16 && t.rip + 4 < TWO_64
    ensures t'.Valid() && t'.rip == t.rip + |Opcodes.MovR32MemRsp(r)|
    ensures r != ESP ==> t'.regs[ESP] == t.regs[ESP]
  {
    t.(regs := t.regs[r := ReadWord(t.mem, t.regs[ESP], 4, TWO_32) % TWO_32], rip := t.rip + |Opcodes.MovR32MemRsp(r)|)
  }

  /** After the lea that raises the stack pointer. */
  function Raised(t: Cpu64): (t': Cpu64)
    requires t.Valid() && t.regs[ESP] + 4 < TWO_64 && t.rip + 5 < TWO_64
    ensures t'.Valid() && t'.rip == t.rip + 5
  {
    t.(regs := t.regs[ESP := t.regs[ESP] + 4], rip := t.rip + 5)
  }

  lemma {:induction false} LoadStep(text: bytes, base: nat, t: Cpu64, r: nat)
    requires t.Valid() && r < 16 && t.regs[ESP] + 4 < TWO_32
    requires CodeAt(text, base, t.rip, Opcodes.MovR32MemRsp(r)) && t.rip + 4 < TWO_64
    ensures Step64(text, base, t) == Some(AfterLoad(t, r))
  {
    LoadDecodes(r);
    hide ReadWord, Exec64, Step64, CodeAt, Encodes;
    StepAt(text, base, Opcodes.MovR32MemRsp(r), Load32(r, Based(ESP, 0)), t);
    ExecPop(t.(rip := t.rip + |Opcodes.MovR32MemRsp(r)|), r);
  }

  lemma {:induction false} LeaStep(text: bytes, base: nat, t: Cpu64)
    requires t.Valid() && t.regs[ESP] + 4 < TWO_32
    requires CodeAt(text, base, t.rip, Opcodes.LeaRspRsp4()) && t.rip + 5 < TWO_64
    ensures Step64(text, base, t) == Some(Raised(t))
  {
    LeaRspDecodes();
    hide ReadWord, Exec64, Step64, CodeAt, Encodes;
    StepAt(text, base, Opcodes.LeaRspRsp4(), Lea64(ESP, Based(ESP, 4)), t);
    ExecPop(t.(rip := t.rip + 5), 0);
  }

  lemma {:induction false} PopIs(text: bytes, base: nat, t: Cpu64, r: nat)
    requires t.Valid() && r < 16 && r != ESP && t.regs[ESP] + 4 < TWO_32
    requires CodeAt(text, base, t.rip, PopCode(r)) && t.rip + |PopCode(r)| < TWO_64
    ensures |PopCode(r)| == |Opcodes.MovR32MemRsp(r)| + 5 && |Opcodes.MovR32MemRsp(r)| <= 4
    ensures CodeAt(text, base, t.rip, Opcodes.MovR32MemRsp(r))
    ensures CodeAt(text, base, AfterLoad(t, r).rip, Opcodes.LeaRspRsp4())
    ensures AfterLoad(t, r).regs[ESP] == t.regs[ESP]
    ensures Raised(AfterLoad(t, r)) == AfterPop(t, r, |PopCode(r)|)
  {
    CodeAtSplit(text, base, t.rip, Opcodes.MovR32MemRsp(r), Opcodes.LeaRspRsp4());
    hide CodeAt, ReadWord;
  }

  /** The load and the lea together are one 32-bit pop. */
  lemma {:induction false} PopRuns(text: bytes, base: nat, t: Cpu64, r: nat)
    requires t.Valid() && r < 16 && r != ESP && t.regs[ESP] + 4 < TWO_32
    requires CodeAt(text, base, t.rip, PopCode(r)) && t.rip + |PopCode(r)| < TWO_64
    ensures Run64(text, base, 2, t) == Some(AfterPop(t, r, |PopCode(r)|))
  {
    hide *;
    SixteenRegs(t);
    PopIs(text, base, t, r);
    LoadStep(text, base, t, r);
    LeaStep(text, base, AfterLoad(t, r));
    TwoSteps(text, base, t, AfterLoad(t, r), Raised(AfterLoad(t, r)));
  }

  // ----- the same effects on both machines -----

  lemma {:induction false} RelFacts(s: Cpu32, t: Cpu64)
    requires Rel(s, t)
    ensures |t.regs| == 16 && |s.regs| == 8 && t.rip == s.pc && t.Valid() && s.Valid()
    ensures ESP == 4 == Opcodes.ESP && R11 == 11 && TWO_32 == 0x1_0000_0000 && TWO_64 == 0x1_0000_0000_0000_0000
    ensures forall r :: 0 <= r < 8 ==> t.regs[r] == s.regs[r]
  {
  }

  lemma {:induction false} RelPush(s: Cpu32, t: Cpu64, v: int, len: nat)
    requires Rel(s, t) && s.regs[ESP] >= 4 && s.pc + len < TWO_32
    ensures Rel(Push32(s, v).(pc := s.pc + len), AfterPush(t, v, len))
  {
    hide WriteWord, Le;
    assert (s.regs[ESP] - 4) % TWO_32 == s.regs[ESP] - 4;
  }

  lemma {:induction false} RelPop(s: Cpu32, t: Cpu64, r: nat, len: nat)
    requires Rel(s, t) && s.regs[ESP] + 4 < TWO_32 && s.pc + len < TWO_32 && r != ESP && r < 8
    ensures Rel(Exec32(PopReg(r), s.pc + len, s), AfterPop(t, r, len))
  {
    hide ReadWord;
    assert (s.regs[ESP] + 4) % TWO_32 == s.regs[ESP] + 4;
  }

  lemma {:induction false} RelRet(s: Cpu32, t: Cpu64, next: uint32, len: nat)
    requires Rel(s, t) && s.regs[ESP] + 4 < TWO_32 && t.rip + len < TWO_64
    ensures var t' := AfterPop(t, R11, len);
      Rel(Exec32(Ret, next, s), t'.(rip := t'.regs[R11]))
  {
    hide ReadWord;
    assert (s.regs[ESP] + 4) % TWO_32 == s.regs[ESP] + 4;
  }

  lemma {:induction false} RelScratch(s: Cpu32, t: Cpu64, v: uint64, pc: uint32)
    requires Rel(s, t)
    ensures Rel(s.(pc := pc), t.(regs := t.regs[R11 := v], rip := pc))
  {
  }

  // ----- one i386 step -----

  lemma {:induction false} JumpRegStep(text: bytes, base: nat, t: Cpu64, r: nat)
    requires t.Valid() && r < 16 && CodeAt(text, base, t.rip, Opcodes.JmpR64(r)) && t.rip + 3 < TWO_64
    ensures Run64(text, base, 1, t) == Some(t.(rip := t.regs[r]))
  {
    JmpR64Decodes(r);
    StepAt(text, base, Opcodes.JmpR64(r), JmpTo(Reg(r)), t);
    hide Step64, CodeAt, Encodes;
    OneStep(text, base, t, t.(rip := t.regs[r]));
  }

  lemma {:induction false} RetIs(text: bytes, base: nat, addr: uint32, next: uint32)
    requires Implements(text, base, addr, Ret, next)
    ensures CodeAt(text, base, addr, PopCode(R11)) && CodeAt(text, base, addr + |PopCode(R11)|, Opcodes.JmpR64(R11))
    ensures addr + |PopCode(R11)| + 3 < TWO_64
  {
    CodeAtSplit(text, base, addr, PopCode(R11), Opcodes.JmpR64(R11));
    hide CodeAt;
  }

  lemma {:induction false} SimRet(text: bytes, base: nat, s: Cpu32, t: Cpu64, next: uint32)
    requires Rel(s, t) && s.regs[ESP] + 4 < TWO_32 && Implements(text, base, s.pc, Ret, next)
    ensures Run64(text, base, 3, t).Some? && Rel(Exec32(Ret, next, s), Run64(text, base, 3, t).value)
  {
    hide *;
    RelFacts(s, t);
    RetIs(text, base, s.pc, next);
    PopRuns(text, base, t, R11);
    JumpRegStep(text, base, AfterPop(t, R11, |PopCode(R11)|), R11);
    RunSum(text, base, 2, 1, t);
    RelRet(s, t, next, |PopCode(R11)|);
  }

  /** After the lea of the return address. */
  function Returning(t: Cpu64, next: uint32): (t': Cpu64)
    requires t.Valid() && t.rip + 7 < TWO_64
    ensures t'.Valid() && t'.rip == t.rip + 7
    ensures t'.regs[ESP] == t.regs[ESP] && t'.regs[R11] == next
  {
    t.(regs := t.regs[R11 := next], rip := t.rip + 7)
  }

  lemma {:induction false} LeaR11Step(text: bytes, base: nat, t: Cpu64, f: bytes, next: uint32)
    requires t.Valid() && |f| == 4 && CodeAt(text, base, t.rip, Opcodes.LeaR11Rip()[..3] + f)
    requires t.rip + 7 < TWO_64 && t.rip + 7 + Signed32(f) == next
    ensures Run64(text, base, 1, t) == Some(Returning(t, next))
  {
    LeaR11Decodes(f);
    StepAt(text, base, Opcodes.LeaR11Rip()[..3] + f, Lea64(R11, Rip(Signed32(f))), t);
    assert (t.rip + 7 + Signed32(f)) % TWO_64 == next;
    hide Step64, CodeAt, Encodes, Signed32;
    OneStep(text, base, t, Returning(t, next));
  }

  /** The machine when the jump of an expanded call starts. */
  function AtJump(t: Cpu64, next: uint32): (t': Cpu64)
    requires t.Valid() && 4 <= t.regs[ESP] && t.rip + 15 < TWO_64
    ensures t'.Valid() && t'.rip == t.rip + 15
    ensures forall r :: 0 <= r < 8 && r != ESP ==> t'.regs[r] == t.regs[r]
  {
    AfterPush(Returning(t, next), next, 8)
  }

  function CallStore(): bytes { Opcodes.MovMemRspR32(R11) }

  lemma {:induction false} CallIs(text: bytes, base: nat, t: Cpu64, f: bytes, jump: bytes, next: uint32)
    requires t.Valid() && IsCall(text, base, t.rip, f, jump, next)
    ensures |f| == 4 && t.rip + 15 + |jump| == next && |PushCode(CallStore())| == 8 && t.rip + 7 + Signed32(f) == next
    ensures CodeAt(text, base, t.rip, Opcodes.LeaR11Rip()[..3] + f)
    ensures CodeAt(text, base, t.rip + 7, PushCode(CallStore()))
    ensures CodeAt(text, base, t.rip + 15, jump)
  {
    var lea := Opcodes.LeaR11Rip()[..3] + f;
    CodeAtSplit(text, base, t.rip, lea + PushCode(CallStore()), jump);
    CodeAtSplit(text, base, t.rip, lea, PushCode(CallStore()));
    hide CodeAt;
  }

  lemma {:induction false} CallStores(t: Cpu64, next: uint32)
    requires t.Valid() && t.rip + 7 < TWO_64
    ensures Stores(Store32(Based(ESP, 0), R11), Returning(t, next), Le(4, next))
    ensures Encodes(CallStore(), Store32(Based(ESP, 0), R11))
  {
    hide Le, Encodes;
    StoreDecodes(R11);
  }

  /** The return address computed by lea reaches the stack. */
  lemma {:induction false} CallRuns(text: bytes, base: nat, t: Cpu64, f: bytes, jump: bytes, next: uint32)
    requires t.Valid() && 4 <= t.regs[ESP] < TWO_32 && IsCall(text, base, t.rip, f, jump, next)
    ensures t.rip + 15 + |jump| == next
    ensures Run64(text, base, 4, t) == Some(AtJump(t, next)) && CodeAt(text, base, t.rip + 15, jump)
  {
    assert |t.regs| == 16;
    hide Exec64, Step64, WriteWord, Le, CodeAt, Encodes, Run64, AfterPush, PushCode, IsCall, CallStore, Stores, Returning;
    hide Cpu64.Valid, Signed32, Opcodes.LeaR11Rip;
    CallIs(text, base, t, f, jump, next);
    LeaR11Step(text, base, t, f, next);
    CallStores(t, next);
    PushRuns(text, base, Returning(t, next), CallStore(), Store32(Based(ESP, 0), R11), next);
    RunSum(text, base, 1, 3, t);
  }

  lemma {:induction false} RelCall(s: Cpu32, t: Cpu64, next: uint32, pc: uint32)
    requires Rel(s, t) && s.regs[ESP] >= 4 && s.pc + 15 < TWO_32
    ensures Rel(Push32(s, next).(pc := pc), AtJump(t, next).(rip := pc))
  {
    RelScratch(s, t, next, s.pc + 7);
    RelPush(s.(pc := s.pc + 7), Returning(t, next), next, 8);
    assert Push32(s.(pc := s.pc + 7), next).(pc := pc) == Push32(s, next).(pc := pc);
    hide Push32, AfterPush;
  }

  /** A jump by a displacement that leads to `target`. */
  lemma {:induction false} SimJump(text: bytes, base: nat, t: Cpu64, g: bytes, target: uint32)
    requires t.Valid() && |g| == 4 && CodeAt(text, base, t.rip, [0xe9] + g) && t.rip + 5 < TWO_64
    requires t.rip + 5 + Signed32(g) == target
    ensures Run64(text, base, 1, t) == Some(t.(rip := target))
  {
    JmpRelDecodes(g);
    StepAt(text, base, [0xe9] + g, JmpBy(Signed32(g)), t);
    assert (t.rip + 5 + Signed32(g)) % TWO_64 == target;
    OneStep(text, base, t, t.(rip := target));
  }

  /** Both halves of an expanded call: `len` bytes of jump that goes to `pc`. */
  lemma {:induction false} CallThenJump(text: bytes, base: nat, s: Cpu32, t: Cpu64, next: uint32, pc: uint32)
    requires Rel(s, t) && 4 <= s.regs[ESP] && s.pc + 15 < TWO_32 && t.Valid() && t.rip == s.pc
    requires 4 <= t.regs[ESP] && Run64(text, base, 4, t) == Some(AtJump(t, next))
    requires Run64(text, base, 1, AtJump(t, next)) == Some(AtJump(t, next).(rip := pc))
    ensures Run64(text, base, 5, t) == Some(AtJump(t, next).(rip := pc))
    ensures Rel(Push32(s, next).(pc := pc), AtJump(t, next).(rip := pc))
  {
    hide *;
    RelFacts(s, t);
    RunSum(text, base, 4, 1, t);
    RelCall(s, t, next, pc);
  }

  lemma {:induction false} CallToFacts(
    text: bytes, base: nat, s: Cpu32, t: Cpu64, target: uint32, next: uint32) returns (f: bytes, g: bytes)
    requires Rel(s, t) && Implements(text, base, s.pc, CallTo(target), next)
    ensures IsCall(text, base, s.pc, f, [0xe9] + g, next) && |g| == 4 && next + Signed32(g) == target
    ensures |t.regs| == 16 && |s.regs| == 8 && t.regs[ESP] == s.regs[ESP] && t.rip == s.pc && t.Valid() && s.Valid()
    ensures t.regs[ESP] < TWO_32 && next < TWO_32 < TWO_64
  {
    hide IsCall, Signed32;
    assert CallToAt(text, base, s.pc, target, next);
    f, g :| IsCall(text, base, s.pc, f, [0xe9] + g, next) && |g| == 4 && next + Signed32(g) == target;
  }

  lemma {:induction false} CallToEffect(s: Cpu32, target: uint32, next: uint32)
    requires s.Valid()
    ensures Exec32(CallTo(target), next, s) == Push32(s, next).(pc := target)
  {
    hide Push32;
  }

  lemma {:induction false} SimCallTo(text: bytes, base: nat, s: Cpu32, t: Cpu64, target: uint32, next: uint32)
    requires Rel(s, t) && s.regs[ESP] >= 4 && Implements(text, base, s.pc, CallTo(target), next)
    ensures Run64(text, base, 5, t).Some? && Rel(Exec32(CallTo(target), next, s), Run64(text, base, 5, t).value)
  {
    hide *;
    var f, g := CallToFacts(text, base, s, t, target, next);
    CallToEffect(s, target, next);
    CallRuns(text, base, t, f, [0xe9] + g, next);
    SimJump(text, base, AtJump(t, next), g, target);
    CallThenJump(text, base, s, t, next, target);
  }

  lemma {:induction false} CallRegFacts(text: bytes, base: nat, s: Cpu32, r: nat, next: uint32) returns (f: bytes)
    requires s.Valid() && r < 8 && Implements(text, base, s.pc, CallReg(r), next)
    ensures IsCall(text, base, s.pc, f, Opcodes.JmpR64(r), next) && |Opcodes.JmpR64(r)| == 2
    ensures Exec32(CallReg(r), next, s) == Push32(s, next).(pc := s.regs[r])
  {
    hide IsCall, Push32;
    assert CallRegAt(text, base, s.pc, r, next);
    f :| IsCall(text, base, s.pc, f, Opcodes.JmpR64(r), next);
  }

  lemma {:induction false} SimCallReg(text: bytes, base: nat, s: Cpu32, t: Cpu64, r: nat, next: uint32)
    requires Rel(s, t) && s.regs[ESP] >= 4 && r < 8 && r != ESP && Implements(text, base, s.pc, CallReg(r), next)
    ensures Run64(text, base, 5, t).Some? && Rel(Exec32(CallReg(r), next, s), Run64(text, base, 5, t).value)
  {
    hide *;
    RelFacts(s, t);
    var f := CallRegFacts(text, base, s, r, next);
    CallRuns(text, base, t, f, Opcodes.JmpR64(r), next);
    JumpRegStep(text, base, AtJump(t, next), r);
    CallThenJump(text, base, s, t, next, s.regs[r]);
  }

  lemma {:induction false} PushRegIs(text: bytes, base: nat, s: Cpu32, t: Cpu64, r: nat, next: uint32)
    requires Rel(s, t) && r < 8 && r != ESP && Implements(text, base, s.pc, PushReg(r), next)
    ensures
      var code := PushCode(Opcodes.MovMemRspR32(r));
      CodeAt(text, base, t.rip, code) && next == s.pc + |code|
    ensures Stores(Store32(Based(ESP, 0), r), t, Le(4, s.regs[r]))
    ensures Exec32(PushReg(r), next, s) == Push32(s, s.regs[r]).(pc := next)
  {
    hide CodeAt, PushCode, Le, Push32;
  }

  lemma {:induction false} PushConstIs(text: bytes, base: nat, s: Cpu32, t: Cpu64, imm: uint32, next: uint32)
    requires Rel(s, t) && Implements(text, base, s.pc, PushConst(imm), next)
    ensures
      var code := PushCode(Opcodes.MovMemRspImm(imm));
      CodeAt(text, base, t.rip, code) && next == s.pc + |code|
    ensures Stores(StoreImm32(Based(ESP, 0), imm), t, Le(4, imm))
    ensures Exec32(PushConst(imm), next, s) == Push32(s, imm).(pc := next)
  {
    hide CodeAt, PushCode, Le, Push32;
  }

  lemma {:induction false} PopRegIs(text: bytes, base: nat, s: Cpu32, t: Cpu64, r: nat, next: uint32)
    requires Rel(s, t) && r < 8 && Implements(text, base, s.pc, PopReg(r), next)
    ensures CodeAt(text, base, t.rip, PopCode(r)) && next == s.pc + |PopCode(r)|
  {
    hide CodeAt, PopCode;
  }

  lemma {:induction false} SimPushReg(text: bytes, base: nat, s: Cpu32, t: Cpu64, r: nat, next: uint32)
    requires Rel(s, t) && s.regs[ESP] >= 4 && r < 8 && r != ESP && Implements(text, base, s.pc, PushReg(r), next)
    ensures Run64(text, base, 3, t).Some? && Rel(Exec32(PushReg(r), next, s), Run64(text, base, 3, t).value)
  {
    hide *;
    RelFacts(s, t);
    PushRegIs(text, base, s, t, r, next);
    var store := Opcodes.MovMemRspR32(r);
    StoreDecodes(r);
    PushRuns(text, base, t, store, Store32(Based(ESP, 0), r), s.regs[r]);
    RelPush(s, t, s.regs[r], |PushCode(store)|);
  }

  lemma {:induction false} SimPushConst(text: bytes, base: nat, s: Cpu32, t: Cpu64, imm: uint32, next: uint32)
    requires Rel(s, t) && s.regs[ESP] >= 4 && Implements(text, base, s.pc, PushConst(imm), next)
    ensures Run64(text, base, 3, t).Some? && Rel(Exec32(PushConst(imm), next, s), Run64(text, base, 3, t).value)
  {
    hide *;
    RelFacts(s, t);
    PushConstIs(text, base, s, t, imm, next);
    var store := Opcodes.MovMemRspImm(imm);
    StoreImmDecodes(imm);
    PushRuns(text, base, t, store, StoreImm32(Based(ESP, 0), imm), imm);
    RelPush(s, t, imm, |PushCode(store)|);
  }

  lemma {:induction false} SimPopReg(text: bytes, base: nat, s: Cpu32, t: Cpu64, r: nat, next: uint32)
    requires Rel(s, t) && s.regs[ESP] + 4 < TWO_32 && r < 8 && r != ESP && Implements(text, base, s.pc, PopReg(r), next)
    ensures Run64(text, base, 2, t).Some? && Rel(Exec32(PopReg(r), next, s), Run64(text, base, 2, t).value)
  {
    hide *;
    RelFacts(s, t);
    PopRegIs(text, base, s, t, r, next);
    PopRuns(text, base, t, r);
    RelPop(s, t, r, |PopCode(r)|);
  }

  /** One instruction that moves on to `next`. */
  lemma {:induction false} PlainStep(text: bytes, base: nat, t: Cpu64, code: bytes, op: Op)
    requires t.Valid() && OpValid(op) && Encodes(code, op) && CodeAt(text, base, t.rip, code)
    requires t.rip + |code| < TWO_64
    ensures Run64(text, base, 1, t) == Some(Exec64(op, t.(rip := t.rip + |code|)))
  {
    assert |t.regs| == 16;
    hide Exec64, Step64, Encodes, CodeAt, Run64, OpValid;
    StepAt(text, base, code, op, t);
    OneStep(text, base, t, Exec64(op, t.(rip := t.rip + |code|)));
  }

  lemma {:induction false} SimJumpTo(text: bytes, base: nat, s: Cpu32, t: Cpu64, target: uint32, next: uint32)
    requires Rel(s, t) && Implements(text, base, s.pc, Jump(target), next)
    ensures Run64(text, base, 1, t).Some? && Rel(Exec32(Jump(target), next, s), Run64(text, base, 1, t).value)
  {
    assert RelativeAt(text, base, s.pc, [0xe9], target, next);
    hide Implements, CodeAt, Signed32, Run64;
    var g :| |g| == 4 && PlainAt(text, base, s.pc, [0xe9] + g, next) && next + Signed32(g) == target;
    SimJump(text, base, t, g, target);
  }

  lemma {:induction false} RelBranch(s: Cpu32, t: Cpu64, cc: nat, target: uint32, next: uint32)
    requires Rel(s, t) && cc < 16
    ensures Rel(Exec32(Branch(cc, target), next, s), Exec64(JccBy(cc, target - next), t.(rip := next)))
  {
    hide Cond;
    assert (next + (target - next)) % TWO_64 == target;
  }

  lemma {:induction false} RelativeIs(text: bytes, base: nat, addr: nat, opcode: bytes, target: uint32, next: uint32)
    returns (g: bytes)
    requires RelativeAt(text, base, addr, opcode, target, next)
    ensures |g| == 4 && CodeAt(text, base, addr, opcode + g) && next == addr + |opcode + g|
    ensures Signed32(g) == target - next
  {
    g :| |g| == 4 && PlainAt(text, base, addr, opcode + g, next) && next + Signed32(g) == target;
  }

  lemma {:induction false} BranchIs(text: bytes, base: nat, addr: nat, cc: nat, target: uint32, next: uint32)
    requires cc < 16 && Implements(text, base, addr, Branch(cc, target), next)
    ensures RelativeAt(text, base, addr, [0x0f, 0x80 + cc], target, next) && OpValid(JccBy(cc, target - next))
  {
    hide RelativeAt;
  }

  lemma {:induction false} AddressIs(text: bytes, base: nat, addr: nat, r: nat, target: uint32, next: uint32)
    requires r < 8 && Implements(text, base, addr, LoadAddress(r, target), next)
    ensures |Opcodes.LeaR32Rip(r)| == 6 && OpValid(Lea32(r, Rip(target - next)))
    ensures RelativeAt(text, base, addr, Opcodes.LeaR32Rip(r)[..2], target, next)
  {
    hide RelativeAt;
  }

  lemma {:induction false} SimBranch(text: bytes, base: nat, s: Cpu32, t: Cpu64, cc: nat, target: uint32, next: uint32)
    requires Rel(s, t) && cc < 16 && Implements(text, base, s.pc, Branch(cc, target), next)
    ensures Run64(text, base, 1, t).Some? && Rel(Exec32(Branch(cc, target), next, s), Run64(text, base, 1, t).value)
  {
    hide *;
    RelValid(s, t);
    BranchIs(text, base, s.pc, cc, target, next);
    var g := RelativeIs(text, base, s.pc, [0x0f, 0x80 + cc], target, next);
    JccDecodes(cc, g);
    PlainStep(text, base, t, [0x0f, 0x80 + cc] + g, JccBy(cc, Signed32(g)));
    RelBranch(s, t, cc, target, next);
  }

  lemma {:induction false} SimLoadConst(text: bytes, base: nat, s: Cpu32, t: Cpu64, r: nat, imm: uint32, next: uint32)
    requires Rel(s, t) && r < 8 && Implements(text, base, s.pc, LoadConst(r, imm), next)
    ensures Run64(text, base, 1, t).Some? && Rel(Exec32(LoadConst(r, imm), next, s), Run64(text, base, 1, t).value)
  {
    assert CodeAt(text, base, s.pc, Opcodes.MovR32Imm(r, imm)) && next == s.pc + 5;
    hide Implements, CodeAt, Run64, Encodes, Le;
    MovImmDecodes(r, imm);
    PlainStep(text, base, t, Opcodes.MovR32Imm(r, imm), MovImm32(r, imm));
  }

  lemma {:induction false} RelLoadAddress(s: Cpu32, t: Cpu64, r: nat, target: uint32, next: uint32)
    requires Rel(s, t) && r < 8
    ensures Rel(Exec32(LoadAddress(r, target), next, s), Exec64(Lea32(r, Rip(target - next)), t.(rip := next)))
  {
    assert (next + (target - next)) % TWO_64 % TWO_32 == target;
  }

  lemma {:induction false} SimLoadAddress(
    text: bytes, base: nat, s: Cpu32, t: Cpu64, r: nat, target: uint32, next: uint32)
    requires Rel(s, t) && r < 8 && Implements(text, base, s.pc, LoadAddress(r, target), next)
    ensures Run64(text, base, 1, t).Some? && Rel(Exec32(LoadAddress(r, target), next, s), Run64(text, base, 1, t).value)
  {
    hide *;
    RelValid(s, t);
    AddressIs(text, base, s.pc, r, target, next);
    var g := RelativeIs(text, base, s.pc, Opcodes.LeaR32Rip(r)[..2], target, next);
    LeaR32Decodes(r, g);
    PlainStep(text, base, t, Opcodes.LeaR32Rip(r)[..2] + g, Lea32(r, Rip(Signed32(g))));
    RelLoadAddress(s, t, r, target, next);
  }

  lemma {:induction false} RelIncDec(s: Cpu32, t: Cpu64, r: nat, up: bool, next: uint32)
    requires Rel(s, t) && r < 8
    ensures Rel(Exec32(if up then IncReg(r) else DecReg(r), next, s),
                Exec64(if up then Inc32(r) else Dec32(r), t.(rip := next)))
  {
    hide IncFlags, DecFlags;
    assert s.regs[r] % TWO_32 == s.regs[r];
  }

  lemma {:induction false} IncDecIs(text: bytes, base: nat, addr: nat, r: nat, up: bool, next: uint32)
    requires r < 8 && Implements(text, base, addr, if up then IncReg(r) else DecReg(r), next)
    ensures OpValid(if up then Inc32(r) else Dec32(r))
    ensures CodeAt(text, base, addr, if up then Opcodes.IncR32(r) else Opcodes.DecR32(r))
    ensures next == addr + 2 && |Opcodes.IncR32(r)| == |Opcodes.DecR32(r)| == 2
  {
    hide CodeAt;
  }

  lemma {:induction false} SimIncDec(text: bytes, base: nat, s: Cpu32, t: Cpu64, r: nat, up: bool, next: uint32)
    requires Rel(s, t) && r < 8
    requires Implements(text, base, s.pc, if up then IncReg(r) else DecReg(r), next)
    ensures Run64(text, base, 1, t).Some?
    ensures Rel(Exec32(if up then IncReg(r) else DecReg(r), next, s), Run64(text, base, 1, t).value)
  {
    hide *;
    RelValid(s, t);
    IncDecIs(text, base, s.pc, r, up, next);
    IncDecDecode(r);
    if up {
      PlainStep(text, base, t, Opcodes.IncR32(r), Inc32(r));
    } else {
      PlainStep(text, base, t, Opcodes.DecR32(r), Dec32(r));
    }
    RelIncDec(s, t, r, up, next);
  }

  // ----- push of memory -----

  /** The dword a 64-bit load finds at the operand: address arithmetic does not wrap at 4 GiB. */
  function Dword64(m: Mem32, s: Cpu32): uint32
    requires s.Valid() && LowRegs(m)
  {
    ReadWord(s.mem, Sum32(m, s) % TWO_64, 4, TWO_64) % TWO_32
  }

  /** After the load of the operand. */
  function AfterMem(t: Cpu64, v: uint32, len: nat): (t': Cpu64)
    requires t.Valid() && t.rip + len < TWO_64
    ensures t'.Valid() && t'.rip == t.rip + len && t'.regs[ESP] == t.regs[ESP] && t'.regs[R11] == v
  {
    t.(regs := t.regs[R11 := v], rip := t.rip + len)
  }

  lemma {:induction false} LoadsOperand(s: Cpu32, t: Cpu64, m: Mem32, len: nat)
    requires Rel(s, t) && LowRegs(m) && t.rip + len < TWO_64
    ensures OpValid(Load32(R11, Widened(m)))
    ensures Exec64(Load32(R11, Widened(m)), t.(rip := t.rip + len)) == AfterMem(t, Dword64(m, s), len)
  {
    hide ReadWord;
    assert Address(Widened(m), t.(rip := t.rip + len)) == Sum32(m, s) % TWO_64;
  }

  lemma {:induction false} PushMemIs(text: bytes, base: nat, addr: nat, m: Mem32, next: uint32) returns (load: bytes)
    requires Implements(text, base, addr, PushMem(m), next)
    ensures LowRegs(m) && Encodes(load, Load32(R11, Widened(m)))
    ensures CodeAt(text, base, addr, load) && CodeAt(text, base, addr + |load|, PushCode(Opcodes.MovMemRspR32(R11)))
    ensures next == addr + |load| + |PushCode(Opcodes.MovMemRspR32(R11))|
    ensures |PushCode(Opcodes.MovMemRspR32(R11))| == 4 + |Opcodes.MovMemRspR32(R11)| == 8
  {
    var push := PushCode(Opcodes.MovMemRspR32(R11));
    load :| Encodes(load, Load32(R11, Widened(m))) && PlainAt(text, base, addr, load + push, next);
    CodeAtSplit(text, base, addr, load, push);
    PushCodeIs(Opcodes.MovMemRspR32(R11));
    hide Encodes, CodeAt, PushCode;
  }

  /** Up to the push: r11 holds the dword. */
  lemma {:induction false} OperandLoaded(text: bytes, base: nat, s: Cpu32, t: Cpu64, m: Mem32, load: bytes)
    requires Rel(s, t) && LowRegs(m) && t.rip + |load| < TWO_64
    requires Encodes(load, Load32(R11, Widened(m))) && CodeAt(text, base, t.rip, load)
    ensures Run64(text, base, 1, t) == Some(AfterMem(t, Dword64(m, s), |load|))
  {
    hide *;
    RelFacts(s, t);
    LoadsOperand(s, t, m, |load|);
    PlainStep(text, base, t, load, Load32(R11, Widened(m)));
  }

  lemma {:induction false} RelMem(s: Cpu32, t: Cpu64, v: uint32, len: nat)
    requires Rel(s, t) && s.pc + len < TWO_32
    ensures t.rip + len < TWO_64 && Rel(s.(pc := s.pc + len), AfterMem(t, v, len))
    ensures Stores(Store32(Based(ESP, 0), R11), AfterMem(t, v, len), Le(4, v))
  {
    hide Le;
  }

  lemma {:induction false} PushIgnoresPc(s: Cpu32, v: int, pc: uint32, next: uint32)
    requires s.Valid()
    ensures Push32(s.(pc := pc), v).(pc := next) == Push32(s, v).(pc := next)
  {
    hide WriteWord, Le;
  }

  /** With stack to spare, the expansion pushes the dword the 64-bit load finds. */
  lemma {:induction false} PushMemRuns(text: bytes, base: nat, s: Cpu32, t: Cpu64, m: Mem32, next: uint32)
    requires Rel(s, t) && s.regs[ESP] >= 4 && Implements(text, base, s.pc, PushMem(m), next)
    ensures LowRegs(m) && Run64(text, base, 4, t).Some?
    ensures Rel(Push32(s, Dword64(m, s)).(pc := next), Run64(text, base, 4, t).value)
  {
    hide *;
    RelFacts(s, t);
    var load := PushMemIs(text, base, s.pc, m, next);
    var store := Opcodes.MovMemRspR32(R11);
    var v := Dword64(m, s);
    OperandLoaded(text, base, s, t, m, load);
    RelMem(s, t, v, |load|);
    var s1, t1 := s.(pc := s.pc + |load|), AfterMem(t, v, |load|);
    RelFacts(s1, t1);
    StoreDecodes(R11);
    PushRuns(text, base, t1, store, Store32(Based(ESP, 0), R11), v);
    RelPush(s1, t1, v, 8);
    PushIgnoresPc(s, v, s1.pc, next);
    RunSum(text, base, 1, 3, t);
  }

  lemma {:induction false} SameDword(m: Mem32, s: Cpu32)
    requires s.Valid() && LowRegs(m) && Inside(m, s)
    ensures Dword64(m, s) == Dword32(m, s)
  {
    ReadSame(s.mem, Sum32(m, s), 4);
    assert Sum32(m, s) % TWO_64 == Sum32(m, s);
    hide ReadWord;
  }

  lemma {:induction false} SafePush(m: Mem32, s: Cpu32, next: uint32)
    requires s.Valid() && LowRegs(m)
    ensures Safe(PushMem(m), s) <==> s.regs[ESP] >= 4 && Inside(m, s)
    ensures Exec32(PushMem(m), next, s) == Push32(s, Dword32(m, s)).(pc := next)
    ensures |s.regs| == 8 && ESP == 4
  {
    hide Sum32, Push32, Dword32, Inside;
  }

  lemma {:induction false} SimPushMem(text: bytes, base: nat, s: Cpu32, t: Cpu64, m: Mem32, next: uint32)
    requires Rel(s, t) && LowRegs(m) && Safe(PushMem(m), s) && Implements(text, base, s.pc, PushMem(m), next)
    ensures Run64(text, base, 4, t).Some? && Rel(Exec32(PushMem(m), next, s), Run64(text, base, 4, t).value)
  {
    hide *;
    RelFacts(s, t);
    SafePush(m, s, next);
    PushMemRuns(text, base, s, t, m, next);
    SameDword(m, s);
  }

  // ----- copied accesses to memory -----

  /** The memory after a 64-bit store at the operand. */
  function Stored64(m: Mem32, r: nat, s: Cpu32): Memory
    requires s.Valid() && LowRegs(m) && r < 8
  {
    WriteWord(s.mem, Sum32(m, s) % TWO_64, Le(4, s.regs[r]), TWO_64)
  }

  function Stored32(m: Mem32, r: nat, s: Cpu32): Memory
    requires s.Valid() && LowRegs(m) && r < 8
  {
    WriteWord(s.mem, Sum32(m, s), Le(4, s.regs[r]), TWO_32)
  }

  lemma {:induction false} SameStore(m: Mem32, r: nat, s: Cpu32)
    requires s.Valid() && LowRegs(m) && r < 8 && Inside(m, s)
    ensures Stored64(m, r, s) == Stored32(m, r, s)
  {
    var a, v := Sum32(m, s), Le(4, s.regs[r]);
    assert a % TWO_64 == a;
    WriteFour(s.mem, a, v, TWO_32);
    WriteFour(s.mem, a, v, TWO_64);
    hide WriteWord, Le;
  }

  lemma {:induction false} EncodedStep(text: bytes, base: nat, t: Cpu64, op: Op, next: uint32)
    requires t.Valid() && OpValid(op) && EncodedAt(text, base, t.rip, op, next)
    ensures Run64(text, base, 1, t) == Some(Exec64(op, t.(rip := next)))
  {
    hide Run64, Encodes, CodeAt, Exec64, OpValid;
    var code :| Encodes(code, op) && PlainAt(text, base, t.rip, code, next);
    PlainStep(text, base, t, code, op);
  }

  lemma {:induction false} AccessesOperand(s: Cpu32, t: Cpu64, op: Op32, next: uint32)
    requires Rel(s, t) && op.Valid() && (op.LoadMem? || op.StoreMem? || op.LeaMem?)
    ensures t.(rip := next).Valid() && OpValid(Copied64(op))
    ensures Exec64(Copied64(op), t.(rip := next)) == AfterCopy(op, s, t, next)
  {
    hide ReadWord, WriteWord, Le;
    assert Address(Widened(op.m), t.(rip := next)) == Sum32(op.m, s) % TWO_64;
    Halved(Sum32(op.m, s));
  }

  lemma {:induction false} Halved(x: int)
    ensures x % TWO_64 % TWO_32 == x % TWO_32
  {
    var q := x / TWO_64;
    assert x == q * TWO_32 * TWO_32 + x % TWO_64;
    Whole(q * TWO_32, x % TWO_64);
  }

  lemma {:induction false} Whole(q: int, r: int)
    ensures (q * TWO_32 + r) % TWO_32 == r % TWO_32
  {
  }

  /** The 64-bit instruction that a copied one is. */
  function Copied64(op: Op32): Op
    requires op.LoadMem? || op.StoreMem? || op.LeaMem?
  {
    match op
    case LoadMem(r, m) => Load32(r, Widened(m))
    case StoreMem(m, r) => Store32(Widened(m), r)
    case LeaMem(r, m) => Lea32(r, Widened(m))
  }

  lemma {:induction false} CopyIs(text: bytes, base: nat, addr: nat, op: Op32, next: uint32)
    requires op.LoadMem? || op.StoreMem? || op.LeaMem?
    requires Implements(text, base, addr, op, next)
    ensures EncodedAt(text, base, addr, Copied64(op), next)
    ensures op.LoadMem? ==> Copied64(op) == Load32(op.r, Widened(op.m))
    ensures op.StoreMem? ==> Copied64(op) == Store32(Widened(op.m), op.r)
    ensures op.LeaMem? ==> Copied64(op) == Lea32(op.r, Widened(op.m))
  {
    hide EncodedAt, Widened;
  }

  /** What a copied load, store or lea leaves. */
  function AfterCopy(op: Op32, s: Cpu32, t: Cpu64, next: uint32): (t': Cpu64)
    requires s.Valid() && t.Valid() && op.Valid() && (op.LoadMem? || op.StoreMem? || op.LeaMem?)
    ensures t'.Valid()
  {
    match op
    case LoadMem(r, m) => t.(regs := t.regs[r := Dword64(m, s)], rip := next)
    case StoreMem(m, r) => t.(mem := Stored64(m, r, s), rip := next)
    case LeaMem(r, m) => t.(regs := t.regs[r := Sum32(m, s) % TWO_32], rip := next)
  }

  lemma {:induction false} CopyRuns(text: bytes, base: nat, s: Cpu32, t: Cpu64, op: Op32, next: uint32)
    requires Rel(s, t) && op.Valid() && (op.LoadMem? || op.StoreMem? || op.LeaMem?)
    requires Implements(text, base, s.pc, op, next)
    ensures s.Valid() && t.Valid() && Run64(text, base, 1, t) == Some(AfterCopy(op, s, t, next))
  {
    hide *;
    RelFacts(s, t);
    CopyIs(text, base, s.pc, op, next);
    AccessesOperand(s, t, op, next);
    EncodedStep(text, base, t, Copied64(op), next);
  }

  /** The operand means the same on both sides. */
  predicate SameEffect(op: Op32, s: Cpu32)
    requires s.Valid() && op.Valid() && (op.LoadMem? || op.StoreMem? || op.LeaMem?)
  {
    match op
    case LoadMem(_, m) => Dword64(m, s) == Dword32(m, s)
    case StoreMem(m, r) => Stored64(m, r, s) == Stored32(m, r, s)
    case LeaMem(_, _) => true
  }

  lemma {:induction false} RelCopy(s: Cpu32, t: Cpu64, op: Op32, next: uint32)
    requires Rel(s, t) && op.Valid() && (op.LoadMem? || op.StoreMem? || op.LeaMem?)
    ensures Rel(Exec32(op, next, s), AfterCopy(op, s, t, next)) <==> SameEffect(op, s)
  {
    hide ReadWord, WriteWord, Le, Dword64, Dword32, Sum32;
    if op.LoadMem? {
      var x, y := t.regs[op.r := Dword64(op.m, s)], s.regs[op.r := Dword32(op.m, s)];
      assert x[op.r] == Dword64(op.m, s) && y[op.r] == Dword32(op.m, s);
    }
  }

  /** A load, a store or a lea that is copied: exactly when it does what it did; a lea always. */
  lemma {:induction false} CopySimulatedIff(text: bytes, base: nat, s: Cpu32, t: Cpu64, op: Op32, next: uint32)
    requires Rel(s, t) && op.Valid() && (op.LoadMem? || op.StoreMem? || op.LeaMem?)
    requires Implements(text, base, s.pc, op, next)
    ensures Run64(text, base, 1, t).Some?
    ensures Rel(Exec32(op, next, s), Run64(text, base, 1, t).value) <==> SameEffect(op, s)
  {
    hide *;
    RelFacts(s, t);
    CopyRuns(text, base, s, t, op, next);
    RelCopy(s, t, op, next);
  }

  lemma {:induction false} SafeCopy(op: Op32, s: Cpu32)
    requires s.Valid() && op.Valid() && (op.LoadMem? || op.StoreMem? || op.LeaMem?)
    ensures op.r < 8 && LowRegs(op.m)
    ensures Safe(op, s) <==> op.LeaMem? || Inside(op.m, s)
    ensures op.LoadMem? ==> (SameEffect(op, s) <==> Dword64(op.m, s) == Dword32(op.m, s))
    ensures op.StoreMem? ==> (SameEffect(op, s) <==> Stored64(op.m, op.r, s) == Stored32(op.m, op.r, s))
    ensures op.LeaMem? ==> SameEffect(op, s)
  {
    hide Inside, Dword64, Dword32, Stored64, Stored32;
  }

  lemma {:induction false} SimCopy(text: bytes, base: nat, s: Cpu32, t: Cpu64, op: Op32, next: uint32)
    requires Rel(s, t) && op.Valid() && (op.LoadMem? || op.StoreMem? || op.LeaMem?)
    requires Safe(op, s) && Implements(text, base, s.pc, op, next)
    ensures Run64(text, base, 1, t).Some? && Rel(Exec32(op, next, s), Run64(text, base, 1, t).value)
  {
    hide *;
    RelFacts(s, t);
    SafeCopy(op, s);
    CopySimulatedIff(text, base, s, t, op, next);
    if !op.LeaMem? {
      SameDword(op.m, s);
      SameStore(op.m, op.r, s);
    }
  }

  /** How many x86_64 instructions replace the i386 instruction. */
  function Cost(op: Op32): (n: nat)
    ensures n >= 1
  {
    match op
    case PushReg(_) => 3
    case PushConst(_) => 3
    case PopReg(_) => 2
    case CallTo(_) => 5
    case CallReg(_) => 5
    case Ret => 3
    case PushMem(_) => 4
    case _ => 1
  }

  /** One i386 instruction is matched by its expansion. */
  lemma {:induction false} StepSimulated(text: bytes, base: nat, s: Cpu32, t: Cpu64, op: Op32, next: uint32)
    requires Rel(s, t) && op.Valid() && Safe(op, s) && Implements(text, base, s.pc, op, next)
    ensures Run64(text, base, Cost(op), t).Some?
    ensures Rel(Exec32(op, next, s), Run64(text, base, Cost(op), t).value)
  {
    hide Implements, Rel, Exec32, Run64;
    match op
    case PushReg(r) => SimPushReg(text, base, s, t, r, next);
    case PushConst(imm) => SimPushConst(text, base, s, t, imm, next);
    case PopReg(r) => SimPopReg(text, base, s, t, r, next);
    case CallTo(target) => SimCallTo(text, base, s, t, target, next);
    case CallReg(r) => SimCallReg(text, base, s, t, r, next);
    case Ret => SimRet(text, base, s, t, next);
    case Jump(target) => SimJumpTo(text, base, s, t, target, next);
    case Branch(cc, target) => SimBranch(text, base, s, t, cc, target, next);
    case LoadConst(r, imm) => SimLoadConst(text, base, s, t, r, imm, next);
    case LoadAddress(r, target) => SimLoadAddress(text, base, s, t, r, target, next);
    case IncReg(r) => SimIncDec(text, base, s, t, r, true, next);
    case DecReg(r) => SimIncDec(text, base, s, t, r, false, next);
    case PushMem(m) => SimPushMem(text, base, s, t, m, next);
    case _ => SimCopy(text, base, s, t, op, next);
  }

  // ----- whole runs -----

  /** `n` steps of the i386 program. */
  function Run32(code: Code32, n: nat, s: Cpu32): (r: Option<Cpu32>)
    requires s.Valid()
    ensures r.Some? ==> r.value.Valid()
  {
    if n == 0 then Some(s)
    else
      match Step32(code, s)
      case None => None
      case Some(s') => Run32(code, n - 1, s')
  }

  /** Every instruction of the program stands translated at its address. */
  ghost predicate Translated(code: Code32, text: bytes, base: nat)
  {
    forall addr :: addr in code ==> Implements(text, base, addr, code[addr].0, code[addr].1)
  }

  /** The first `n` steps never let the stack pointer wrap and never push, pop or call through esp. */
  predicate SafeRun(code: Code32, n: nat, s: Cpu32)
    requires s.Valid()
  {
    n > 0 && Step32(code, s).Some? ==>
      Safe(code[s.pc].0, s) && SafeRun(code, n - 1, Step32(code, s).value)
  }

  lemma {:induction false} RunStep(code: Code32, n: nat, s: Cpu32)
    requires s.Valid() && n > 0 && Run32(code, n, s).Some? && SafeRun(code, n, s)
    ensures s.pc in code
    ensures
      var op, next := code[s.pc].0, code[s.pc].1;
      && op.Valid() && Safe(op, s) && Run32(code, n, s) == Run32(code, n - 1, Exec32(op, next, s))
      && SafeRun(code, n - 1, Exec32(op, next, s))
  {
    hide Exec32, Safe;
  }

  /** Forward simulation: every run of the i386 program is matched by a run of the emitted x86_64 code. */
  lemma {:induction false} RunSimulated(code: Code32, text: bytes, base: nat, n: nat, s: Cpu32, t: Cpu64)
    returns (m: nat)
    requires Translated(code, text, base) && Rel(s, t) && Run32(code, n, s).Some? && SafeRun(code, n, s)
    ensures n <= m && Run64(text, base, m, t).Some? && Rel(Run32(code, n, s).value, Run64(text, base, m, t).value)
    decreases n
  {
    hide *;
    RelValid(s, t);
    if n == 0 {
      m := 0;
      RunNone(code, text, base, s, t);
    } else {
      RunStep(code, n, s);
      var op, next := code[s.pc].0, code[s.pc].1;
      TranslatedAt(code, text, base, s.pc);
      StepSimulated(text, base, s, t, op, next);
      var t' := Run64(text, base, Cost(op), t).value;
      var rest := RunSimulated(code, text, base, n - 1, Exec32(op, next, s), t');
      m := Cost(op) + rest;
      RunSum(text, base, Cost(op), rest, t);
    }
  }

  lemma {:induction false} TranslatedAt(code: Code32, text: bytes, base: nat, addr: uint32)
    requires Translated(code, text, base) && addr in code
    ensures Implements(text, base, addr, code[addr].0, code[addr].1)
  {
    hide Implements;
  }

  lemma {:induction false} RelValid(s: Cpu32, t: Cpu64)
    requires Rel(s, t)
    ensures s.Valid() && t.Valid() && s.pc == t.rip && t.rip + 15 < TWO_64
  {
  }

  lemma {:induction false} RunNone(code: Code32, text: bytes, base: nat, s: Cpu32, t: Cpu64)
    requires s.Valid() && t.Valid()
    ensures Run32(code, 0, s) == Some(s) && Run64(text, base, 0, t) == Some(t)
  {
    hide Step32, Step64;
  }
}
