/**
 Exactly when the expansions of src/core/instruction.cc simulate the i386 instruction. They do not when esp itself is
 pushed, popped or called through, when the stack pointer wraps in 32 bits but not in 64, and when an operand's
 address does and the effect there is another one.
 */
module SimulateExact {
  import opened Wrappers
  import opened Emit
  import opened Machine
  import opened Decoder
  import Opcodes
  import opened OpcodesProof
  import opened Simulate

  /** The stack pointer `d` bytes lower, in 64 bits. */
  function Lowered(t: Cpu64, d: nat): uint64
    requires t.Valid()
  {
    (t.regs[ESP] - d) % TWO_64
  }

  lemma {:induction false} LowerTwice(t: Cpu64, t1: Cpu64)
    requires t.Valid() && t1.Valid() && t1.regs == t.regs[ESP := Lowered(t, 2)]
    ensures t1.regs[ESP := Lowered(t1, 2)] == t.regs[ESP := Lowered(t, 4)]
    ensures |t.regs| == |t1.regs| == 16 && ESP == 4
  {
  }

  lemma {:induction false} PushAxEffect(text: bytes, base: nat, t: Cpu64) returns (t': Cpu64)
    requires t.Valid() && t.rip + 2 < TWO_64 && CodeAt(text, base, t.rip, Opcodes.PushAx())
    ensures Step64(text, base, t) == Some(t') && t'.Valid()
    ensures t'.regs == t.regs[ESP := Lowered(t, 2)] && t'.rip == t.rip + 2 && t'.flags == t.flags
  {
    PushAxDecodes();
    hide Encodes, CodeAt, WriteWord, Le, Step64;
    StepAt(text, base, Opcodes.PushAx(), Push16(0), t);
    t' := Step64(text, base, t).value;
  }

  lemma {:induction false} StoreEffect(text: bytes, base: nat, t: Cpu64, r: nat) returns (t': Cpu64)
    requires t.Valid() && r < 16 && t.rip + 4 < TWO_64 && CodeAt(text, base, t.rip, Opcodes.MovMemRspR32(r))
    ensures Step64(text, base, t) == Some(t') && t'.Valid() && t'.regs == t.regs && t'.flags == t.flags
    ensures t'.mem == WriteWord(t.mem, t.regs[ESP], Le(4, t.regs[r]), TWO_64)
    ensures t'.rip == t.rip + |Opcodes.MovMemRspR32(r)|
  {
    StoreDecodes(r);
    hide Encodes, CodeAt, WriteWord, Le, Step64;
    StepAt(text, base, Opcodes.MovMemRspR32(r), Store32(Based(ESP, 0), r), t);
    t' := Step64(text, base, t).value;
    assert (t.regs[ESP] + 0) % TWO_64 == t.regs[ESP];
  }

  lemma {:induction false} CodeIsPush(text: bytes, base: nat, addr: nat, r: nat)
    requires r < 16 && CodeAt(text, base, addr, PushCode(Opcodes.MovMemRspR32(r)))
    ensures CodeAt(text, base, addr, Opcodes.PushAx()) && CodeAt(text, base, addr + 2, Opcodes.PushAx())
    ensures CodeAt(text, base, addr + 4, Opcodes.MovMemRspR32(r)) && |Opcodes.MovMemRspR32(r)| <= 4
    ensures |PushCode(Opcodes.MovMemRspR32(r))| == 4 + |Opcodes.MovMemRspR32(r)|
  {
    var push := Opcodes.PushAx();
    CodeAtSplit(text, base, addr, push + push, Opcodes.MovMemRspR32(r));
    CodeAtSplit(text, base, addr, push, push);
    hide CodeAt;
  }

  /** What the expansion of push does whatever the register and the stack pointer are. */
  lemma {:induction false} PushEffect(text: bytes, base: nat, t: Cpu64, r: nat) returns (t': Cpu64, mem: Memory)
    requires t.Valid() && r < 16 && t.rip + 8 < TWO_64
    requires CodeAt(text, base, t.rip, PushCode(Opcodes.MovMemRspR32(r)))
    ensures Run64(text, base, 3, t) == Some(t') && t'.Valid() && t'.regs == t.regs[ESP := Lowered(t, 4)]
    ensures t'.mem == WriteWord(mem, Lowered(t, 4), Le(4, if r == ESP then Lowered(t, 4) else t.regs[r]), TWO_64)
    ensures t'.rip == t.rip + |PushCode(Opcodes.MovMemRspR32(r))|
  {
    hide *;
    SixteenRegs(t);
    CodeIsPush(text, base, t.rip, r);
    var t1 := PushAxEffect(text, base, t);
    var t2 := PushAxEffect(text, base, t1);
    LowerTwice(t, t1);
    t' := StoreEffect(text, base, t2, r);
    ThreeSteps(text, base, t, t1, t2, t');
    mem := t2.mem;
  }

  /** Different low bytes leave different memories. */
  lemma {:induction false} WritesDiffer(m: Memory, n: Memory, a: nat, v: int, w: int)
    requires a + 4 <= TWO_32 && v % 256 != w % 256
    ensures WriteWord(m, a, Le(4, v), TWO_64) != WriteWord(n, a, Le(4, w), TWO_32)
  {
    WriteFour(m, a, Le(4, v), TWO_64);
    WriteFour(n, a, Le(4, w), TWO_32);
    LeFour(v);
    LeFour(w);
    hide *;
    assert m[a := v % 256][a + 1 := Le(4, v)[1]][a + 2 := Le(4, v)[2]][a + 3 := Le(4, v)[3]][a] == v % 256;
    assert n[a := w % 256][a + 1 := Le(4, w)[1]][a + 2 := Le(4, w)[2]][a + 3 := Le(4, w)[3]][a] == w % 256;
  }

  lemma {:induction false} WrapDiffers(esp: uint32)
    requires esp < 4
    ensures (esp - 4) % TWO_64 != (esp - 4) % TWO_32
  {
    assert (esp - 4) % TWO_64 == esp - 4 + TWO_64;
  }

  lemma {:induction false} WrappedPushDiffers(s: Cpu32, t: Cpu64, r: nat, next: uint32, t': Cpu64)
    requires Rel(s, t) && r < 8 && s.regs[ESP] < 4 && t'.Valid() && t'.regs[ESP] == Lowered(t, 4)
    ensures !Rel(Exec32(PushReg(r), next, s), t')
  {
    hide WriteWord, Le;
    WrapDiffers(s.regs[ESP]);
    assert Exec32(PushReg(r), next, s).regs[ESP] == (s.regs[ESP] - 4) % TWO_32;
  }

  lemma {:induction false} EspPushDiffers(s: Cpu32, t: Cpu64, next: uint32, t': Cpu64, mem: Memory)
    requires Rel(s, t) && s.regs[ESP] >= 4
    requires t'.mem == WriteWord(mem, Lowered(t, 4), Le(4, Lowered(t, 4)), TWO_64)
    ensures !Rel(Exec32(PushReg(ESP), next, s), t')
  {
    hide WriteWord, Le;
    var esp := s.regs[ESP];
    assert Lowered(t, 4) == esp - 4;
    WritesDiffer(mem, s.mem, esp - 4, esp - 4, esp);
    assert Exec32(PushReg(ESP), next, s).mem == WriteWord(s.mem, esp - 4, Le(4, esp), TWO_32);
  }

  lemma {:induction false} PushIs(text: bytes, base: nat, s: Cpu32, t: Cpu64, r: nat, next: uint32)
    requires Rel(s, t) && r < 8 && Implements(text, base, s.pc, PushReg(r), next)
    ensures t.Valid() && CodeAt(text, base, t.rip, PushCode(Opcodes.MovMemRspR32(r))) && t.rip + 8 < TWO_64
    ensures |t.regs| == 16 && |s.regs| == 8 && ESP == 4
  {
    hide CodeAt;
  }

  /** push r32: the expansion simulates the push exactly for the registers other than esp while the stack does not wrap. */
  lemma {:induction false} PushSimulatedIff(text: bytes, base: nat, s: Cpu32, t: Cpu64, r: nat, next: uint32)
    requires Rel(s, t) && r < 8 && Implements(text, base, s.pc, PushReg(r), next)
    ensures Run64(text, base, 3, t).Some?
    ensures Rel(Exec32(PushReg(r), next, s), Run64(text, base, 3, t).value) <==> r != ESP && s.regs[ESP] >= 4
  {
    hide *;
    PushIs(text, base, s, t, r, next);
    if r != ESP && s.regs[ESP] >= 4 {
      SimPushReg(text, base, s, t, r, next);
    } else {
      var t', mem := PushEffect(text, base, t, r);
      if s.regs[ESP] < 4 {
        WrappedPushDiffers(s, t, r, next, t');
      } else {
        EspPushDiffers(s, t, next, t', mem);
      }
    }
  }

  // ----- push of a constant, calls and return -----

  /** The two scratch pushes and any store through the stack pointer, whatever the stack pointer is. */
  lemma {:induction false} PushLowers(text: bytes, base: nat, t: Cpu64, store: bytes, op: Op) returns (t': Cpu64)
    requires t.Valid() && t.rip + 4 + |store| < TWO_64 && CodeAt(text, base, t.rip, PushCode(store))
    requires Encodes(store, op) && OpValid(op) && (op.Store32? || op.StoreImm32?)
    ensures Run64(text, base, 3, t) == Some(t') && t'.Valid() && t'.regs == t.regs[ESP := Lowered(t, 4)]
    ensures t'.rip == t.rip + 4 + |store|
  {
    hide *;
    var push := Opcodes.PushAx();
    PushCodeIs(store);
    CodeAtSplit(text, base, t.rip, push + push, store);
    CodeAtSplit(text, base, t.rip, push, push);
    var t1 := PushAxEffect(text, base, t);
    var t2 := PushAxEffect(text, base, t1);
    LowerTwice(t, t1);
    StepAt(text, base, store, op, t2);
    t' := Step64(text, base, t2).value;
    StoreKeeps(op, t2, t2.rip + |store|);
    ThreeSteps(text, base, t, t1, t2, t');
  }

  lemma {:induction false} StoreKeeps(op: Op, t: Cpu64, rip: nat)
    requires t.Valid() && OpValid(op) && (op.Store32? || op.StoreImm32?) && rip < TWO_64
    ensures t.(rip := rip).Valid()
    ensures Exec64(op, t.(rip := rip)).regs == t.regs && Exec64(op, t.(rip := rip)).rip == rip
  {
    hide WriteWord, Le;
  }

  /** A stack pointer lowered in 64 bits is not the one lowered in 32 if it wraps. */
  lemma {:induction false} LoweredDiffers(s: Cpu32, t: Cpu64, s': Cpu32, t': Cpu64)
    requires Rel(s, t) && s.regs[ESP] < 4 && t'.Valid() && t'.regs[ESP] == Lowered(t, 4)
    requires s'.Valid() && s'.regs[ESP] == (s.regs[ESP] - 4) % TWO_32
    ensures !Rel(s', t')
  {
    WrapDiffers(s.regs[ESP]);
  }

  lemma {:induction false} PushedEsp(s: Cpu32, v: int, pc: uint32)
    requires s.Valid()
    ensures Push32(s, v).(pc := pc).Valid() && Push32(s, v).(pc := pc).regs[ESP] == (s.regs[ESP] - 4) % TWO_32
    ensures |s.regs| == 8 && ESP == 4
  {
    hide WriteWord, Le;
  }

  lemma {:induction false} StoreImmShape(s: Cpu32, imm: uint32, next: uint32)
    requires s.Valid()
    ensures |Opcodes.MovMemRspImm(imm)| <= 8 && OpValid(StoreImm32(Based(ESP, 0), imm)) && ESP == 4 == Opcodes.ESP
    ensures TWO_32 == 0x1_0000_0000 && TWO_32 + 100 < TWO_64
    ensures Exec32(PushConst(imm), next, s) == Push32(s, imm).(pc := next)
  {
    hide Push32, Le;
  }

  /** push imm: the expansion simulates the push exactly while the stack does not wrap. */
  lemma {:induction false} PushConstSimulatedIff(
    text: bytes, base: nat, s: Cpu32, t: Cpu64, imm: uint32, next: uint32)
    requires Rel(s, t) && Implements(text, base, s.pc, PushConst(imm), next)
    ensures Run64(text, base, 3, t).Some?
    ensures Rel(Exec32(PushConst(imm), next, s), Run64(text, base, 3, t).value) <==> s.regs[ESP] >= 4
  {
    hide *;
    RelFacts(s, t);
    if s.regs[ESP] >= 4 {
      SimPushConst(text, base, s, t, imm, next);
    } else {
      PushConstIs(text, base, s, t, imm, next);
      StoreImmShape(s, imm, next);
      StoreImmDecodes(imm);
      var t' := PushLowers(text, base, t, Opcodes.MovMemRspImm(imm), StoreImm32(Based(ESP, 0), imm));
      PushedEsp(s, imm, next);
      LoweredDiffers(s, t, Push32(s, imm).(pc := next), t');
    }
  }

  lemma {:induction false} CallStoreShape()
    ensures |CallStore()| == 4 && OpValid(Store32(Based(ESP, 0), R11)) && ESP == 4 && R11 == 11
    ensures TWO_32 == 0x1_0000_0000 && TWO_32 + 100 < TWO_64
  {
  }

  /** An expanded call up to its jump, whatever the stack pointer is. */
  lemma {:induction false} CallLowers(text: bytes, base: nat, t: Cpu64, f: bytes, jump: bytes, next: uint32)
    returns (t': Cpu64)
    requires t.Valid() && IsCall(text, base, t.rip, f, jump, next)
    ensures t.rip + 15 + |jump| == next && CodeAt(text, base, t.rip + 15, jump)
    ensures Run64(text, base, 4, t) == Some(t') && t'.Valid() && t'.rip == t.rip + 15
    ensures t'.regs[ESP] == Lowered(t, 4)
  {
    hide *;
    SixteenRegs(t);
    CallIs(text, base, t, f, jump, next);
    CallStoreShape();
    LeaR11Step(text, base, t, f, next);
    CallStores(t, next);
    SixteenRegs(Returning(t, next));
    t' := PushLowers(text, base, Returning(t, next), CallStore(), Store32(Based(ESP, 0), R11));
    SameLowered(t, Returning(t, next));
    RunSum(text, base, 1, 3, t);
  }

  lemma {:induction false} SameLowered(t: Cpu64, u: Cpu64)
    requires t.Valid() && u.Valid() && t.regs[ESP] == u.regs[ESP]
    ensures Lowered(t, 4) == Lowered(u, 4)
  {
  }

  /** call rel32: the expansion simulates the call exactly while the stack does not wrap. */
  lemma {:induction false} CallToSimulatedIff(
    text: bytes, base: nat, s: Cpu32, t: Cpu64, target: uint32, next: uint32)
    requires Rel(s, t) && Implements(text, base, s.pc, CallTo(target), next)
    ensures Run64(text, base, 5, t).Some?
    ensures Rel(Exec32(CallTo(target), next, s), Run64(text, base, 5, t).value) <==> s.regs[ESP] >= 4
  {
    hide *;
    RelFacts(s, t);
    if s.regs[ESP] >= 4 {
      SimCallTo(text, base, s, t, target, next);
    } else {
      var f, g := CallToFacts(text, base, s, t, target, next);
      CallToEffect(s, target, next);
      var t' := CallLowers(text, base, t, f, [0xe9] + g, next);
      SimJump(text, base, t', g, target);
      RunSum(text, base, 4, 1, t);
      PushedEsp(s, next, target);
      LoweredDiffers(s, t, Push32(s, next).(pc := target), t'.(rip := target));
    }
  }

  /** call esp: the i386 target is esp before the push, the expansion jumps to esp after it. */
  lemma {:induction false} CallEspDiffers(s: Cpu32, t: Cpu64, s': Cpu32, t': Cpu64)
    requires Rel(s, t) && t'.Valid() && t'.rip == Lowered(t, 4) && s'.pc == s.regs[ESP]
    ensures !Rel(s', t')
  {
    if s.regs[ESP] < 4 {
      assert (s.regs[ESP] - 4) % TWO_64 == s.regs[ESP] - 4 + TWO_64;
    }
  }

  /** call r32: the expansion simulates the call exactly for the registers other than esp while the stack does not wrap. */
  lemma {:induction false} CallRegSimulatedIff(text: bytes, base: nat, s: Cpu32, t: Cpu64, r: nat, next: uint32)
    requires Rel(s, t) && r < 8 && Implements(text, base, s.pc, CallReg(r), next)
    ensures Run64(text, base, 5, t).Some?
    ensures Rel(Exec32(CallReg(r), next, s), Run64(text, base, 5, t).value) <==> r != ESP && s.regs[ESP] >= 4
  {
    hide *;
    RelFacts(s, t);
    if r != ESP && s.regs[ESP] >= 4 {
      SimCallReg(text, base, s, t, r, next);
    } else {
      var f := CallRegFacts(text, base, s, r, next);
      var t' := CallLowers(text, base, t, f, Opcodes.JmpR64(r), next);
      JumpRegStep(text, base, t', r);
      RunSum(text, base, 4, 1, t);
      PushedEsp(s, next, s.regs[r]);
      SixteenRegs(t');
      if s.regs[ESP] < 4 {
        LoweredDiffers(s, t, Push32(s, next).(pc := s.regs[r]), t'.(rip := t'.regs[r]));
      } else {
        CallEspDiffers(s, t, Push32(s, next).(pc := s.regs[r]), t'.(rip := t'.regs[r]));
      }
    }
  }

  // ----- pop -----

  /** What the two instructions of a pop do, whatever the register and the stack pointer are. */
  function Popped(t: Cpu64, r: nat, rip: uint64): Cpu64
    requires t.Valid() && r < 16
  {
    var regs := t.regs[r := ReadWord(t.mem, t.regs[ESP], 4, TWO_64) % TWO_32];
    t.(regs := regs[ESP := (regs[ESP] + 4) % TWO_64], rip := rip)
  }

  lemma {:induction false} ExecLoad(t: Cpu64, r: nat, rip: nat)
    requires t.Valid() && r < 16
    ensures |Opcodes.MovR32MemRsp(r)| <= 4 && OpValid(Load32(r, Based(ESP, 0))) && ESP == 4 == Opcodes.ESP
    ensures
      rip < TWO_64 ==>
        && t.(rip := rip).Valid()
        && Exec64(Load32(r, Based(ESP, 0)), t.(rip := rip)) ==
           t.(regs := t.regs[r := ReadWord(t.mem, t.regs[ESP], 4, TWO_64) % TWO_32], rip := rip)
  {
    hide ReadWord;
    assert (t.regs[ESP] + 0) % TWO_64 == t.regs[ESP];
  }

  lemma {:induction false} LoadEffect(text: bytes, base: nat, t: Cpu64, r: nat)
    requires t.Valid() && r < 16 && t.rip + 4 < TWO_64 && CodeAt(text, base, t.rip, Opcodes.MovR32MemRsp(r))
    ensures |Opcodes.MovR32MemRsp(r)| <= 4
    ensures Step64(text, base, t) ==
            Some(t.(regs := t.regs[r := ReadWord(t.mem, t.regs[ESP], 4, TWO_64) % TWO_32],
                    rip := t.rip + |Opcodes.MovR32MemRsp(r)|))
  {
    hide *;
    SixteenRegs(t);
    LoadDecodes(r);
    ExecLoad(t, r, t.rip + |Opcodes.MovR32MemRsp(r)|);
    StepAt(text, base, Opcodes.MovR32MemRsp(r), Load32(r, Based(ESP, 0)), t);
  }

  lemma {:induction false} RaiseEffect(text: bytes, base: nat, t: Cpu64)
    requires t.Valid() && t.rip + 5 < TWO_64 && CodeAt(text, base, t.rip, Opcodes.LeaRspRsp4())
    ensures |Opcodes.LeaRspRsp4()| == 5
    ensures Step64(text, base, t) ==
            Some(t.(regs := t.regs[ESP := (t.regs[ESP] + 4) % TWO_64], rip := t.rip + 5))
  {
    LeaRspDecodes();
    hide Encodes, CodeAt, Step64;
    StepAt(text, base, Opcodes.LeaRspRsp4(), Lea64(ESP, Based(ESP, 4)), t);
  }

  lemma {:induction false} PopEffect(text: bytes, base: nat, t: Cpu64, r: nat)
    requires t.Valid() && r < 16 && t.rip + 9 < TWO_64 && CodeAt(text, base, t.rip, PopCode(r))
    ensures t.rip + |PopCode(r)| < TWO_64
    ensures Run64(text, base, 2, t) == Some(Popped(t, r, t.rip + |PopCode(r)|))
  {
    hide *;
    SixteenRegs(t);
    PopSplits(text, base, t.rip, r);
    LoadEffect(text, base, t, r);
    var t1 := Step64(text, base, t).value;
    RaiseEffect(text, base, t1);
    TwoSteps(text, base, t, t1, Step64(text, base, t1).value);
    PoppedIs(t, r, t.rip + |PopCode(r)|);
  }

  lemma {:induction false} PopSplits(text: bytes, base: nat, addr: nat, r: nat)
    requires r < 16 && CodeAt(text, base, addr, PopCode(r))
    ensures CodeAt(text, base, addr, Opcodes.MovR32MemRsp(r))
    ensures CodeAt(text, base, addr + |Opcodes.MovR32MemRsp(r)|, Opcodes.LeaRspRsp4())
    ensures |PopCode(r)| == |Opcodes.MovR32MemRsp(r)| + |Opcodes.LeaRspRsp4()| && ESP == 4
  {
    CodeAtSplit(text, base, addr, Opcodes.MovR32MemRsp(r), Opcodes.LeaRspRsp4());
    hide CodeAt;
  }

  lemma {:induction false} PoppedIs(t: Cpu64, r: nat, rip: uint64)
    requires t.Valid() && r < 16
    ensures
      var regs := t.regs[r := ReadWord(t.mem, t.regs[ESP], 4, TWO_64) % TWO_32];
      Popped(t, r, rip) == t.(regs := regs[ESP := (regs[ESP] + 4) % TWO_64], rip := rip)
  {
    hide ReadWord;
  }

  /** The dword a 64-bit read finds where a 32-bit pop would read, which is another one if the stack wraps inside it. */
  function Top64(s: Cpu32): uint32
    requires s.Valid()
  {
    ReadWord(s.mem, s.regs[ESP], 4, TWO_64) % TWO_32
  }

  /** Whether the expansion of pop simulates it: a wrapping pop into esp may by accident. */
  predicate PopAgrees(r: nat, s: Cpu32)
    requires s.Valid()
  {
    if s.regs[ESP] + 4 < TWO_32 then r != ESP else r == ESP && Top64(s) + 4 == Top32(s)
  }

  lemma {:induction false} OtherPop(s: Cpu32, t: Cpu64, r: nat, next: uint32)
    requires Rel(s, t) && r < 8 && r != ESP && s.regs[ESP] + 4 >= TWO_32
    ensures !Rel(Exec32(PopReg(r), next, s), Popped(t, r, next))
  {
    hide ReadWord, Top32;
    var esp: int := s.regs[ESP];
    assert (esp + 4) % TWO_64 == esp + 4 >= TWO_32;
    assert Popped(t, r, next).regs[ESP] == esp + 4;
    assert Exec32(PopReg(r), next, s).regs[ESP] == (esp + 4) % TWO_32;
  }

  lemma {:induction false} EspPop(s: Cpu32, t: Cpu64, next: uint32)
    requires Rel(s, t)
    ensures Rel(Exec32(PopReg(ESP), next, s), Popped(t, ESP, next)) <==> Top64(s) + 4 == Top32(s)
  {
    hide ReadWord;
    var s', t' := Exec32(PopReg(ESP), next, s), Popped(t, ESP, next);
    assert (Top64(s) + 4) % TWO_64 == Top64(s) + 4;
    assert t'.regs[ESP] == Top64(s) + 4 && s'.regs[ESP] == Top32(s);
    assert forall k :: 0 <= k < 8 && k != ESP ==> t'.regs[k] == s'.regs[k];
  }

  lemma {:induction false} SameTop(s: Cpu32)
    requires s.Valid() && s.regs[ESP] + 4 < TWO_32
    ensures Top64(s) == Top32(s)
  {
    ReadSame(s.mem, s.regs[ESP], 4);
    hide ReadWord;
  }

  lemma {:induction false} PopAgreesIs(r: nat, s: Cpu32)
    requires s.Valid()
    ensures PopAgrees(r, s) <==>
            if s.regs[ESP] + 4 < TWO_32 then r != ESP else r == ESP && Top64(s) + 4 == Top32(s)
    ensures |s.regs| == 8
  {
    hide Top64, Top32;
  }

  /** pop r32: exactly when the expansion simulates it, for every register and every stack pointer. */
  lemma {:induction false} PopSimulatedIff(text: bytes, base: nat, s: Cpu32, t: Cpu64, r: nat, next: uint32)
    requires Rel(s, t) && r < 8 && Implements(text, base, s.pc, PopReg(r), next)
    ensures Run64(text, base, 2, t).Some?
    ensures Rel(Exec32(PopReg(r), next, s), Run64(text, base, 2, t).value) <==> PopAgrees(r, s)
  {
    hide *;
    RelFacts(s, t);
    PopRegIs(text, base, s, t, r, next);
    PopAgreesIs(r, s);
    PopEffect(text, base, t, r);
    if r == ESP {
      EspPop(s, t, next);
      if s.regs[ESP] + 4 < TWO_32 {
        SameTop(s);
      }
    } else if s.regs[ESP] + 4 < TWO_32 {
      SimPopReg(text, base, s, t, r, next);
    } else {
      OtherPop(s, t, r, next);
    }
  }

  // ----- ret -----

  lemma {:induction false} WrappedRetDiffers(s: Cpu32, t: Cpu64, next: uint32, t': Cpu64)
    requires Rel(s, t) && s.regs[ESP] + 4 >= TWO_32 && t'.Valid()
    requires t'.regs[ESP] == (t.regs[ESP] + 4) % TWO_64
    ensures !Rel(Exec32(Ret, next, s), t')
  {
    hide ReadWord, Top32;
    var esp: int := s.regs[ESP];
    assert (esp + 4) % TWO_64 == esp + 4 >= TWO_32;
    assert Exec32(Ret, next, s).regs[ESP] == (esp + 4) % TWO_32;
  }

  lemma {:induction false} PoppedR11(t: Cpu64, rip: uint64)
    requires t.Valid()
    ensures Popped(t, R11, rip).Valid() && Popped(t, R11, rip).rip == rip && |t.regs| == 16 && ESP == 4 && R11 == 11
    ensures Popped(t, R11, rip).regs[ESP] == (t.regs[ESP] + 4) % TWO_64
  {
    hide ReadWord;
  }

  /** ret: the expansion simulates the return exactly while the stack does not wrap. */
  lemma {:induction false} RetSimulatedIff(text: bytes, base: nat, s: Cpu32, t: Cpu64, next: uint32)
    requires Rel(s, t) && Implements(text, base, s.pc, Ret, next)
    ensures Run64(text, base, 3, t).Some?
    ensures Rel(Exec32(Ret, next, s), Run64(text, base, 3, t).value) <==> s.regs[ESP] + 4 < TWO_32
  {
    hide *;
    RelFacts(s, t);
    if s.regs[ESP] + 4 < TWO_32 {
      SimRet(text, base, s, t, next);
    } else {
      RetIs(text, base, s.pc, next);
      PopEffect(text, base, t, R11);
      var t' := Popped(t, R11, t.rip + |PopCode(R11)|);
      PoppedR11(t, t.rip + |PopCode(R11)|);
      SixteenRegs(t');
      JumpRegStep(text, base, t', R11);
      RunSum(text, base, 2, 1, t);
      WrappedRetDiffers(s, t, next, t'.(rip := t'.regs[R11]));
    }
  }

  // ----- push of memory -----

  /** Different dwords pushed leave different memories. */
  lemma {:induction false} PushedDiffer(mem: Memory, a: nat, v: uint32, w: uint32)
    requires a + 4 <= TWO_32 && WriteWord(mem, a, Le(4, v), TWO_32) == WriteWord(mem, a, Le(4, w), TWO_32)
    ensures v == w
  {
    hide *;
    var x, y := Le(4, v), Le(4, w);
    FourWide();
    WriteFour(mem, a, x, TWO_32);
    WriteFour(mem, a, y, TWO_32);
    FourDiffer(mem, a, x, y);
    Imm32Reads(v);
    Imm32Reads(w);
  }

  lemma {:induction false} FourWide()
    ensures TWO_32 == 0x1_0000_0000
  {
  }

  lemma {:induction false} FourDiffer(mem: Memory, a: nat, x: bytes, y: bytes)
    requires |x| == |y| == 4
    requires mem[a := x[0]][a + 1 := x[1]][a + 2 := x[2]][a + 3 := x[3]] ==
             mem[a := y[0]][a + 1 := y[1]][a + 2 := y[2]][a + 3 := y[3]]
    ensures x == y
  {
    var m, n := mem[a := x[0]][a + 1 := x[1]][a + 2 := x[2]][a + 3 := x[3]],
      mem[a := y[0]][a + 1 := y[1]][a + 2 := y[2]][a + 3 := y[3]];
    assert m[a] == n[a] && m[a + 1] == n[a + 1] && m[a + 2] == n[a + 2] && m[a + 3] == n[a + 3];
  }

  lemma {:induction false} OtherDword(s: Cpu32, t: Cpu64, v: uint32, w: uint32, next: uint32)
    requires s.Valid() && s.regs[ESP] >= 4 && Rel(Push32(s, v).(pc := next), t) && Rel(Push32(s, w).(pc := next), t)
    ensures v == w
  {
    assert (s.regs[ESP] - 4) % TWO_32 == s.regs[ESP] - 4;
    hide Le, WriteWord;
    PushedDiffer(s.mem, s.regs[ESP] - 4, v, w);
  }

  /** push m32: the expansion simulates the push exactly while the stack does not wrap and both widths find one dword. */
  lemma {:induction false} PushMemSimulatedIff(
    text: bytes, base: nat, s: Cpu32, t: Cpu64, m: Mem32, next: uint32)
    requires Rel(s, t) && LowRegs(m) && Implements(text, base, s.pc, PushMem(m), next)
    ensures Run64(text, base, 4, t).Some?
    ensures Rel(Exec32(PushMem(m), next, s), Run64(text, base, 4, t).value) <==>
            s.regs[ESP] >= 4 && Dword64(m, s) == Dword32(m, s)
  {
    hide *;
    RelFacts(s, t);
    SafePush(m, s, next);
    var w := Dword32(m, s);
    if s.regs[ESP] >= 4 {
      PushMemRuns(text, base, s, t, m, next);
      if Rel(Push32(s, w).(pc := next), Run64(text, base, 4, t).value) {
        OtherDword(s, Run64(text, base, 4, t).value, Dword64(m, s), w, next);
      }
    } else {
      var code := PushMemIs(text, base, s.pc, m, next);
      OperandLoaded(text, base, s, t, m, code);
      var v := Dword64(m, s);
      RelMem(s, t, v, |code|);
      var t1 := AfterMem(t, v, |code|);
      StoreDecodes(R11);
      CallStoreShape();
      var t' := PushLowers(text, base, t1, Opcodes.MovMemRspR32(R11), Store32(Based(ESP, 0), R11));
      SameLowered(t, t1);
      SixteenRegs(t1);
      RunSum(text, base, 1, 3, t);
      PushedEsp(s, w, next);
      LoweredDiffers(s, t, Push32(s, w).(pc := next), t');
    }
  }

  // ----- all instructions -----

  predicate Agrees(op: Op32, s: Cpu32)
    requires s.Valid() && op.Valid()
  {
    match op
    case PopReg(r) => PopAgrees(r, s)
    case PushMem(m) => s.regs[ESP] >= 4 && Dword64(m, s) == Dword32(m, s)
    case LoadMem(_, _) => SameEffect(op, s)
    case StoreMem(_, _) => SameEffect(op, s)
    case _ => Safe(op, s)
  }

  /** For every instruction and every state: exactly when running its expansion is executing it. */
  lemma {:induction false} StepSimulatedIff(text: bytes, base: nat, s: Cpu32, t: Cpu64, op: Op32, next: uint32)
    requires Rel(s, t) && op.Valid() && Implements(text, base, s.pc, op, next)
    ensures Run64(text, base, Cost(op), t).Some?
    ensures Rel(Exec32(op, next, s), Run64(text, base, Cost(op), t).value) <==> Agrees(op, s)
  {
    hide Implements, Rel, Exec32, Run64, PopAgrees, Dword32, Dword64, SameEffect;
    match op
    case PushReg(r) => PushSimulatedIff(text, base, s, t, r, next);
    case PushConst(imm) => PushConstSimulatedIff(text, base, s, t, imm, next);
    case PopReg(r) => PopSimulatedIff(text, base, s, t, r, next);
    case CallTo(target) => CallToSimulatedIff(text, base, s, t, target, next);
    case CallReg(r) => CallRegSimulatedIff(text, base, s, t, r, next);
    case Ret => RetSimulatedIff(text, base, s, t, next);
    case PushMem(m) => PushMemSimulatedIff(text, base, s, t, m, next);
    case LoadMem(_, _) => CopySimulatedIff(text, base, s, t, op, next);
    case StoreMem(_, _) => CopySimulatedIff(text, base, s, t, op, next);
    case _ => StepSimulated(text, base, s, t, op, next);
  }
}
