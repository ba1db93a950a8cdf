/**
 The code of the stub sections at run time (src/core/instruction.cc): a pushed address becomes an eight-byte push of
 its new place, and a jump through an address a jump through its new place.
 */
module StubCode {
  import opened Wrappers
  import opened Images
  import opened Blobs
  import opened Layout
  import opened Emit
  import Opcodes
  import opened Placeholders
  import opened Translate
  import opened Link
  import opened References
  import opened Machine
  import opened Decoder
  import opened OpcodesProof
  import opened Simulate
  import opened Pipeline

  /** Blob `x` is an instruction of a stub section whose operand is an address, now that of the place `target`. */
  ghost predicate InStubs(
    parts: seq<Part>, built: seq<SectionView<Ref>>, at: map<Ref, nat>, index: map<nat, uint32>, i: nat, text: bytes,
    x: nat, iform: Iform, to: Ref, target: nat)
  {
    && Loaded(parts, built, at, index, i, text) && x < |parts[i].content| && parts[i].stubs
    && parts[i].content[x].kind.Inst? && parts[i].content[x].kind.insn.iform == iform
    && parts[i].content[x].kind.insn.imm.Some? && parts[i].content[x].kind.insn.imm.value.pointee == Some(to)
    && to.PlaceAt? && to in AllIds(parts) && Made(to, 0) in at && at[Made(to, 0)] == target
  }

  lemma {:induction false} InStubsIs(
    parts: seq<Part>, built: seq<SectionView<Ref>>, at: map<Ref, nat>, index: map<nat, uint32>, i: nat, text: bytes,
    x: nat, iform: Iform, to: Ref, target: nat)
    requires InStubs(parts, built, at, index, i, text, x, iform, to, target)
    ensures Loaded(parts, built, at, index, i, text) && i < |parts| == |built| && x < |parts[i].content|
    ensures Forward(Some(to), AllIds(parts)) == Some(Made(to, 0)) && Made(to, 0) in at && at[Made(to, 0)] == target
    ensures iform.PushImmZ? ==>
      Kinds(parts[i].content[x], parts[i].stubs) ==
      Ok([Inst(Relative(Opcodes.LeaR11Rip(), 3, to)), Inst(Plainly(Opcodes.PushR11()))])
    ensures iform.JmpMem? ==>
      Kinds(parts[i].content[x], parts[i].stubs) == Ok([Inst(Relative(Opcodes.JmpMemRip(), 2, to))])
  {
    ForwardIn(to, AllIds(parts));
    LoadedIs(parts, built, at, index, i, text);
    hide Loaded, Relative, Plainly;
  }

  lemma {:induction false} Shapes()
    ensures |Opcodes.LeaR11Rip()| == 7 && |Opcodes.PushR11()| == 2 && |Opcodes.JmpMemRip()| == 6 && Opcodes.R11 == 11 == R11
    ensures TWO_32 == 0x1_0000_0000 && TWO_32 + 100 < TWO_64 && ESP == 4
  {
  }

  /** Stack pointer down by eight, the address there, scratch register r11 changed. */
  function PushedAddress(t: Cpu64, target: uint64, next: uint64): Cpu64
    requires t.Valid()
  {
    var rsp := (t.regs[ESP] - 8) % TWO_64;
    t.(regs := t.regs[R11 := target][ESP := rsp], mem := WriteWord(t.mem, rsp, Le(8, target), TWO_64), rip := next)
  }

  lemma {:induction false} LeaThenPush(t: Cpu64, target: uint64, next: uint64)
    requires t.Valid() && next >= 2
    ensures OpValid(Lea64(R11, Rip(target - (next - 2)))) && OpValid(Push64(R11))
    ensures
      var t1 := Exec64(Lea64(R11, Rip(target - (next - 2))), t.(rip := next - 2));
      t1.Valid() && t1.rip == next - 2 && Exec64(Push64(R11), t1.(rip := next)) == PushedAddress(t, target, next)
  {
    assert (next - 2 + (target - (next - 2))) % TWO_64 == target;
    hide WriteWord, Le;
  }

  /** push abs32 in a stub section: two instructions that push the eight-byte address of its new place. */
  lemma {:induction false} StubPushRuns(
    parts: seq<Part>, built: seq<SectionView<Ref>>, at: map<Ref, nat>, index: map<nat, uint32>, i: nat, text: bytes,
    x: nat, to: Ref, target: nat, t: Cpu64)
    requires InStubs(parts, built, at, index, i, text, x, PushImmZ, to, target)
    requires t.Valid() && t.rip == Addr(parts, i, x, 0, at) && target < TWO_64
    requires Next(parts, built, i, x, at) < TWO_32
    requires -0x8000_0000 <= target - (Next(parts, built, i, x, at) - 2) < 0x8000_0000
    ensures i < |built| && t.Valid()
    ensures Run64(text, 0, 2, t) == Some(PushedAddress(t, target, Next(parts, built, i, x, at)))
  {
    hide *;
    InStubsIs(parts, built, at, index, i, text, x, PushImmZ, to, target);
    Shapes();
    var lea, push := Opcodes.LeaR11Rip(), Opcodes.PushR11();
    var kinds := [Inst(Relative(lea, 3, to)), Inst(Plainly(push))];
    LoadedIs(parts, built, at, index, i, text);
    ExpandsOf(parts, built, i, x, kinds);
    PlainOf(parts, built, i, x, kinds, 1, push);
    PlainMore(parts, i, x, 1, push);
    var g := RelativePart(parts, built, at, index, i, text, x, 0, lea, 3, to);
    PlainPart(parts, built, at, index, i, text, x, 1, push);
    AfterInner(parts, built, i, x, 0, at);
    AfterInner(parts, built, i, x, 1, at);
    var next := Next(parts, built, i, x, at);
    LeaR11Decodes(g);
    PushR11Decodes();
    LeaThenPush(t, target, next);
    StepAt(text, 0, lea[..3] + g, Lea64(R11, Rip(Signed32(g))), t);
    var t1 := Step64(text, 0, t).value;
    StepAt(text, 0, push, Push64(R11), t1);
    TwoSteps(text, 0, t, t1, Step64(text, 0, t1).value);
  }

  lemma {:induction false} JumpThroughPlace(t: Cpu64, target: uint64, next: uint64)
    requires t.Valid()
    ensures OpValid(JmpTo(Rip(target - next)))
    ensures Exec64(JmpTo(Rip(target - next)), t.(rip := next)) ==
            t.(rip := ReadWord(t.mem, target, 8, TWO_64) % TWO_64)
  {
    assert (next + (target - next)) % TWO_64 == target;
    hide ReadWord;
  }

  /** jmp [abs32] in a stub section: one jump to the eight-byte pointer at its new place. */
  lemma {:induction false} StubJumpRuns(
    parts: seq<Part>, built: seq<SectionView<Ref>>, at: map<Ref, nat>, index: map<nat, uint32>, i: nat, text: bytes,
    x: nat, to: Ref, target: nat, t: Cpu64)
    requires InStubs(parts, built, at, index, i, text, x, JmpMem, to, target)
    requires t.Valid() && t.rip == Addr(parts, i, x, 0, at) && target < TWO_64
    requires Next(parts, built, i, x, at) < TWO_32
    requires -0x8000_0000 <= target - Next(parts, built, i, x, at) < 0x8000_0000
    ensures Run64(text, 0, 1, t) == Some(t.(rip := ReadWord(t.mem, target, 8, TWO_64) % TWO_64))
  {
    hide *;
    InStubsIs(parts, built, at, index, i, text, x, JmpMem, to, target);
    Shapes();
    var jump := Opcodes.JmpMemRip();
    var kinds := [Inst(Relative(jump, 2, to))];
    assert kinds[0] == Inst(Relative(jump, 2, to));
    LoadedIs(parts, built, at, index, i, text);
    ExpandsOf(parts, built, i, x, kinds);
    var g := RelativePart(parts, built, at, index, i, text, x, 0, jump, 2, to);
    AfterInner(parts, built, i, x, 0, at);
    var next := Next(parts, built, i, x, at);
    JmpMemDecodes(g);
    JumpThroughPlace(t, target, next);
    PlainStep(text, 0, t, jump[..2] + g, JmpTo(Rip(Signed32(g))));
  }

  // ----- stub helpers -----

  /** `push imm32` without references, to be given the index of a binding. */
  predicate PushesIndex(push: Insn<Ref>)
  {
    && push.iform.PushImmZ? && |push.buf| == 5 && push.buf[0] == 0x68 && push.memdisp.None? && push.brdisp.None?
    && push.imm.Some? && push.imm.value.pointee.None?
  }

  /** Blob `x` is a stub helper of the input whose jump leads to what is now at `target`. */
  ghost predicate IsHelper(
    parts: seq<Part>, built: seq<SectionView<Ref>>, at: map<Ref, nat>, index: map<nat, uint32>, i: nat, text: bytes,
    x: nat, bindee: nat, to: Ref, target: nat)
  {
    && Loaded(parts, built, at, index, i, text) && x < |parts[i].content|
    && parts[i].content[x].kind.Stub? && parts[i].content[x].kind.bindee == bindee
    && PushesIndex(parts[i].content[x].kind.push) && WideBranch(parts[i].content[x].kind.jmp, [0xe9], to)
    && to.PlaceAt? && to in AllIds(parts) && Made(to, 0) in at && at[Made(to, 0)] == target
  }

  lemma {:induction false} HelperIs(
    parts: seq<Part>, built: seq<SectionView<Ref>>, at: map<Ref, nat>, index: map<nat, uint32>, i: nat, text: bytes,
    x: nat, bindee: nat, to: Ref, target: nat)
    requires IsHelper(parts, built, at, index, i, text, x, bindee, to, target)
    ensures Loaded(parts, built, at, index, i, text) && i < |parts| == |built| && x < |parts[i].content|
    ensures Forward(Some(to), AllIds(parts)) == Some(Made(to, 0)) && Made(to, 0) in at && at[Made(to, 0)] == target
    ensures
      var b := parts[i].content[x];
      && b.kind.Stub? && PushesIndex(b.kind.push) && WideBranch(b.kind.jmp, [0xe9], to)
      && Kinds(b, parts[i].stubs) ==
         Ok([Stub(b.kind.push, b.kind.jmp, Location(0, 0), Location(0, 0), bindee)])
  {
    hide Loaded, WideBranch, PushesIndex, CopyInsn;
    ForwardIn(to, AllIds(parts));
    LoadedIs(parts, built, at, index, i, text);
    HelperCopied(parts[i].content[x].kind.push, parts[i].content[x].kind.jmp, to);
  }

  lemma {:induction false} HelperCopied(push: Insn<Ref>, jmp: Insn<Ref>, to: Ref)
    requires PushesIndex(push) && WideBranch(jmp, [0xe9], to)
    ensures CopyInsn(push) == Ok(push) && CopyInsn(jmp) == Ok(jmp)
  {
    hide Widen;
  }

  /** The number goes over the four bytes behind the opcode. */
  lemma {:induction false} PushBytes(push: Insn<Ref>, loc: Location, at: map<Ref, nat>, v: uint32)
    requires PushesIndex(push)
    ensures InsnBytes(push.(imm := Some(push.imm.value.(value := v))), loc, at) == Some([0x68] + Le(4, v))
  {
    hide Le;
    assert push.buf[..1] == [0x68] && push.buf[5..] == [];
    assert Patch(push.buf, 1, v) == [0x68] + Le(4, v);
  }

  /** A widened jump, patched. */
  lemma {:induction false} JumpBytes(w: Insn<Ref>, loc: Location, at: map<Ref, nat>, to: Ref) returns (g: bytes)
    requires w.memdisp.None? && w.imm.None? && w.brdisp == Some(to) && HasRel32(w.iform)
    requires |w.buf| == 5 && w.buf[..1] == [0xe9] && InsnBytes(w, loc, at).Some?
    ensures to in at && |g| == 4 && InsnBytes(w, loc, at) == Some([0xe9] + g)
    ensures
      var d := at[to] - (loc.vmaddr + 5);
      -0x8000_0000 <= d < 0x8000_0000 ==> Signed32(g) == d
  {
    var d := at[to] - (loc.vmaddr + 5);
    hide Le, Signed32;
    g := Le(4, d);
    assert w.buf[5..] == [];
    assert Patch(w.buf, 1, d) == [0xe9] + g;
    Signed32Iff(d);
  }

  lemma {:induction false} HelperBuilt(
    o: Blob<Ref>, ids: set<Ref>, loc: Location, at: map<Ref, nat>, index: map<nat, uint32>, push: Insn<Ref>,
    jmp: Insn<Ref>, bindee: nat, to: Ref, f: Blob<Ref>) returns (g: bytes)
    requires o.kind == Stub(push, jmp, Location(0, 0), Location(0, 0), bindee)
    requires PushesIndex(push) && WideBranch(jmp, [0xe9], to) && Forward(Some(to), ids).Some?
    requires BuildBlob(ForwardBlob(o, ids), WORD, loc).Some? && f == BuildBlob(ForwardBlob(o, ids), WORD, loc).value.0
    requires BlobBytes(f, WORD, at, index).Some?
    ensures Forward(Some(to), ids).value in at && |g| == 4 && bindee in index
    ensures BlobBytes(f, WORD, at, index) == Some([0x68] + Le(4, index[bindee]) + ([0xe9] + g))
    ensures f.BuiltSize(WORD) == 10
    ensures
      var d := at[Forward(Some(to), ids).value] - (loc.vmaddr + 10);
      -0x8000_0000 <= d < 0x8000_0000 ==> Signed32(g) == d
  {
    BranchWidened(jmp, Forward(Some(to), ids));
    hide Forward, Le, Signed32, Widen, InsnBytes;
    PushWidens(push);
    var p, j := f.kind.push, f.kind.jmp;
    assert PushesIndex(p) && f.kind.pushLoc == loc && f.kind.jmpLoc == loc.Plus(5);
    PushBytes(p, loc, at, index[bindee]);
    g := JumpBytes(j, f.kind.jmpLoc, at, Forward(Some(to), ids).value);
  }

  lemma {:induction false} PushWidens(push: Insn<Ref>)
    requires push.iform.PushImmZ?
    ensures Widen(push) == Some(push)
  {
  }

  /** The bytes of a stub helper in the loaded memory: the push with its index, then the jump. */
  lemma {:induction false} HelperStands(
    parts: seq<Part>, built: seq<SectionView<Ref>>, at: map<Ref, nat>, index: map<nat, uint32>, i: nat, text: bytes,
    x: nat, bindee: nat, to: Ref, target: nat) returns (g: bytes)
    requires IsHelper(parts, built, at, index, i, text, x, bindee, to, target) && parts[i].content[x].active
    ensures bindee in index && |g| == 4 && i < |built|
    ensures CodeAt(text, 0, Addr(parts, i, x, 0, at), [0x68] + Le(4, index[bindee]) + ([0xe9] + g))
    ensures
      var next := Addr(parts, i, x, 0, at) + 10;
      -0x8000_0000 <= target - next < 0x8000_0000 ==> Signed32(g) == target - next
  {
    HelperIs(parts, built, at, index, i, text, x, bindee, to, target);
    var b, ids := parts[i].content[x], AllIds(parts);
    var kind := Stub(b.kind.push, b.kind.jmp, Location(0, 0), Location(0, 0), bindee);
    assert [kind][0] == kind;
    LoadedIs(parts, built, at, index, i, text);
    LoadedMapped(parts, built, at, index, i, text);
    hide Kinds, Compiled, Describes, Mapped, Loaded, IsHelper, Addr, AllIds, Forward, BuildBlob, ForwardBlob, BlobBytes,
         Le, Signed32, CodeAt, PushesIndex, WideBranch, Final;
    ExpandsOf(parts, built, i, x, [kind]);
    Spot(parts, built, at, i, x, 0);
    FinalIs(parts, built, at, i, x, 0);
    var f := Final(parts, built, i, x, 0);
    MappedBytes(text, built[i].content, at, index, SpotOf(parts, i, x, 0));
    g := HelperBuilt(Made64(parts, i, x)[0], ids, f.Start(), at, index, b.kind.push, b.kind.jmp, bindee, to, f);
  }

  lemma {:induction false} MappedBytes(
    text: bytes, content: Content, at: map<Ref, nat>, index: map<nat, uint32>, r: nat)
    requires Mapped(text, content, at, index) && r < |content| && content[r].active
    ensures
      var bs := BlobBytes(content[r], WORD, at, index);
      bs.Some? && (bs.value != [] ==> CodeAt(text, 0, content[r].Start().vmaddr, bs.value))
  {
    hide BlobBytes, CodeAt;
  }

  /** Stack pointer down by eight, the sign-extended number there, and on at `target`. */
  function Helped(t: Cpu64, v: int, target: uint64): Cpu64
    requires t.Valid()
  {
    var rsp := (t.regs[ESP] - 8) % TWO_64;
    t.(regs := t.regs[ESP := rsp], mem := WriteWord(t.mem, rsp, Le(8, v), TWO_64), rip := target)
  }

  lemma {:induction false} PushThenJump(t: Cpu64, v: int, mid: uint64, next: uint64, target: uint64)
    requires t.Valid()
    ensures
      var t1 := Exec64(PushImm64(v), t.(rip := mid));
      t1.Valid() && t1.rip == mid && Exec64(JmpBy(target - next), t1.(rip := next)) == Helped(t, v, target)
  {
    assert (next + (target - next)) % TWO_64 == target;
    hide WriteWord, Le;
  }

  /**
   A stub helper of the input, in the loaded memory: two instructions push the index of its own binding and go to where
   its jump led.
   */
  lemma {:induction false} StubHelperRuns(
    parts: seq<Part>, built: seq<SectionView<Ref>>, at: map<Ref, nat>, index: map<nat, uint32>, i: nat, text: bytes,
    x: nat, bindee: nat, to: Ref, target: nat, t: Cpu64)
    requires IsHelper(parts, built, at, index, i, text, x, bindee, to, target) && parts[i].content[x].active
    requires t.Valid() && t.rip == Addr(parts, i, x, 0, at) && t.rip + 10 < TWO_32 && target < TWO_64
    requires -0x8000_0000 <= target - (t.rip + 10) < 0x8000_0000
    ensures bindee in index && Run64(text, 0, 2, t) == Some(Helped(t, Signed32(Le(4, index[bindee])), target))
  {
    hide *;
    Shapes();
    var g := HelperStands(parts, built, at, index, i, text, x, bindee, to, target);
    var field := Le(4, index[bindee]);
    var push, jump := [0x68] + field, [0xe9] + g;
    CodeAtSplit(text, 0, t.rip, push, jump);
    PushImmDecodes(field);
    JmpRelDecodes(g);
    PushThenJump(t, Signed32(field), t.rip + 5, t.rip + 10, target);
    HelperOps(Signed32(field), Signed32(g));
    StepAt(text, 0, push, PushImm64(Signed32(field)), t);
    var t1 := Step64(text, 0, t).value;
    StepAt(text, 0, jump, JmpBy(Signed32(g)), t1);
    TwoSteps(text, 0, t, t1, Step64(text, 0, t1).value);
  }

  lemma {:induction false} HelperOps(v: int, d: int)
    ensures OpValid(PushImm64(v)) && OpValid(JmpBy(d))
  {
  }
}
