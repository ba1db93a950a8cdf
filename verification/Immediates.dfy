/**
 Immediates that are addresses (src/core/section_blob.cc, src/core/rebase_info.cc): what one refers to once the
 sections and then the rebase table have been read, and where the operand made from it leads.
 */
module Immediates {
  import opened Wrappers
  import opened Blobs
  import opened Layout
  import opened Emit
  import opened Opcodes
  import opened Placeholders
  import opened Translate
  import opened Link
  import opened References
  import R = Resolver

  /** The pointee of the immediate, and the blob of the rebase node with its callback. */
  datatype Waiting = Own | Node

  /**
   The calls about address `a`: an immediate registers itself, asks for its own address if it is the displacement of a
   memory operand, and a rebase node asks for the address it names.
   */
  function CallsAt(a: nat, operand: bool, rebased: bool): seq<R.Event<nat, Ref, Waiting>>
  {
    [R.Added(a, BlobAt(a))] + (if operand then [R.Asked(a, Own)] else []) + (if rebased then [R.Asked(a, Node)] else [])
  }

  /** The callback of the rebase node puts a placeholder where the number `t` points. */
  function Parsed(a: nat, t: nat, s: R.State<nat, Ref, Waiting>): Option<Ref>
  {
    if (Node, BlobAt(a)) in s.ran then Some(PlaceAt(t))
    else if Own in s.cells then Some(s.cells[Own])
    else None
  }

  lemma {:induction false} RunSnoc(es: seq<R.Event<nat, Ref, Waiting>>, e: R.Event<nat, Ref, Waiting>)
    ensures R.Run(true, es + [e]) == R.Step(true, R.Run(true, es), e)
  {
    assert (es + [e])[..|es|] == es;
    hide R.Step;
  }

  /** A request for an object that is known is served at once. */
  lemma {:induction false} AskKnown(s: R.State<nat, Ref, Waiting>, a: nat, p: Waiting)
    requires a in s.found
    ensures R.Step(true, s, R.Asked(a, p)) == s.(cells := s.cells[p := s.found[a]], ran := s.ran + [(p, s.found[a])])
  {
  }

  lemma {:induction false} RunCalls(a: nat, operand: bool, rebased: bool)
    ensures
      var s := R.Run(true, CallsAt(a, operand, rebased));
      && s.cells == (if operand then map[Own := BlobAt(a)] else map[]) + (if rebased then map[Node := BlobAt(a)] else map[])
      && s.ran == (if operand then [(Own, BlobAt(a))] else []) + (if rebased then [(Node, BlobAt(a))] else [])
  {
    var none: seq<R.Event<nat, Ref, Waiting>> := [];
    var added := [R.Added(a, BlobAt(a))];
    var s := R.State(map[a := BlobAt(a)], map[], map[], []);
    assert R.Run(true, none) == R.State(map[], map[], map[], []) && none + added == added;
    RunSnoc(none, R.Added(a, BlobAt(a)));
    assert R.Run(true, added) == s;
    var own, node := [R.Asked(a, Own)], [R.Asked(a, Node)];
    hide R.Run, R.Step;
    if operand {
      RunSnoc(added, own[0]);
      AskKnown(s, a, Own);
      s := s.(cells := map[Own := BlobAt(a)], ran := [(Own, BlobAt(a))]);
      added := added + own;
    }
    assert R.Run(true, added) == s;
    if rebased {
      RunSnoc(added, node[0]);
      AskKnown(s, a, Node);
      assert CallsAt(a, operand, rebased) == added + node;
    } else {
      assert CallsAt(a, operand, rebased) == added;
    }
  }

  /** A memory operand that no rebase names refers to itself, any other immediate to nothing. */
  lemma {:induction false} ParsedIs(a: nat, t: nat, operand: bool, rebased: bool)
    ensures Parsed(a, t, R.Run(true, CallsAt(a, operand, rebased))) ==
            if rebased then Some(PlaceAt(t)) else if operand then Some(BlobAt(a)) else None
  {
    RunCalls(a, operand, rebased);
    hide R.Run, CallsAt;
  }

  /** `jmp [t]` in a stub section, its displacement at address `a`. */
  predicate JumpThrough(b: Blob<Ref>, stubs: bool, a: nat, t: nat, rebased: bool)
  {
    && stubs && b.kind.Inst? && b.kind.insn.iform.JmpMem? && b.kind.insn.imm.Some?
    && b.kind.insn.imm.value.pointee == Parsed(a, t, R.Run(true, CallsAt(a, true, rebased)))
  }

  lemma {:induction false} LostExpands(b: Blob<Ref>, a: nat, ids: set<Ref>)
    requires b.kind.Inst? && b.kind.insn.iform.JmpMem? && b.kind.insn.imm.Some?
    requires b.kind.insn.imm.value.pointee == Some(BlobAt(a)) && BlobAt(a) !in ids
    ensures Expand(b, true).Ok?
    ensures ForwardBlob(Expand(b, true).value[0], ids).kind ==
            Inst(Relative(JmpMemRip(), 2, BlobAt(a)).(memdisp := None))
  {
    hide JmpMemRip;
  }

  lemma {:induction false} LostBuilds(o: Blob<Ref>, loc: Location)
    requires o.kind == Inst(Plainly(JmpMemRip()).(dispPos := 2)) && BuildBlob(o, WORD, loc).Some?
    ensures BuildBlob(o, WORD, loc).value.0.kind == o.kind && BuildBlob(o, WORD, loc).value.0.loc == loc
  {
    hide JmpMemRip;
  }

  lemma {:induction false} LostBytes(insn: Insn<Ref>, loc: Location, at: map<Ref, nat>)
    requires insn == Plainly(JmpMemRip()).(dispPos := 2)
    ensures InsnBytes(insn, loc, at) == Some(insn.buf) && MemTarget(insn, loc, insn.buf) == loc.vmaddr + |insn.buf|
  {
    assert insn.buf[2..6] == [0, 0, 0, 0];
    assert [0, 0, 0, 0][1..] == [0, 0, 0] && [0, 0, 0][1..] == [0, 0] && [0, 0][1..] == [0] && [0][1..] == [];
    assert FromLe([0, 0, 0, 0]) == 0;
  }

  /** Without a rebase the operand gets no pointee: its displacement stays zero, the end of the instruction. */
  lemma {:induction false} UnrebasedLost(
    parts: seq<Part>, built: seq<SectionView<Ref>>, at: map<Ref, nat>, i: nat, x: nat, a: nat, t: nat)
    requires Compiled(parts, built) && Describes(at, built) && i < |parts| && x < |parts[i].content|
    requires JumpThrough(parts[i].content[x], parts[i].stubs, a, t, false) && BlobAt(a) !in AllIds(parts)
    ensures
      && Expand(parts[i].content[x], parts[i].stubs).Ok?
      && var f := Final(parts, built, i, x, 0);
      && f.kind.Inst? && InsnBytes(f.kind.insn, f.loc, at) == Some(f.kind.insn.buf)
      && f.kind.insn.dispPos + 4 <= |f.kind.insn.buf|
      && MemTarget(f.kind.insn, f.loc, f.kind.insn.buf) == f.loc.vmaddr + |f.kind.insn.buf|
  {
    ParsedIs(a, t, true, false);
    var b := parts[i].content[x];
    assert b.kind.insn.imm.value.pointee == Some(BlobAt(a)) && parts[i].stubs;
    hide *;
    LostExpands(b, a, AllIds(parts));
    FinalIs(parts, built, at, i, x, 0);
    var f := Final(parts, built, i, x, 0);
    var o := ForwardBlob(Expand(b, true).value[0], AllIds(parts));
    LostIs(a);
    LostBuilds(o, f.Start());
    LostBytes(f.kind.insn, f.loc, at);
    LostRoom();
  }

  lemma {:induction false} LostIs(a: nat)
    ensures Relative(JmpMemRip(), 2, BlobAt(a)).(memdisp := None) == Plainly(JmpMemRip()).(dispPos := 2)
  {
  }

  lemma {:induction false} LostRoom()
    ensures Plainly(JmpMemRip()).dispPos == 0 && |Plainly(JmpMemRip()).buf| == 6
  {
  }

  lemma {:induction false} RebasedJump(b: Blob<Ref>, stubs: bool, a: nat, t: nat)
    requires JumpThrough(b, stubs, a, t, true)
    ensures ImmTo(b, stubs, t)
  {
    ParsedIs(a, t, true, true);
    hide CallsAt, R.Run, Parsed;
  }

  /**
   A jump through an address leads to the new place of what stood at that address exactly when a rebase names its
   displacement, as long as that place is within reach and is not what happens to follow the jump.
   */
  lemma {:induction false} JumpLeadsIff(
    src: seq<Source>, ps: seq<nat>, parts: seq<Part>, built: seq<SectionView<Ref>>, at: map<Ref, nat>,
    i: nat, x: nat, j: nat, y: nat, a: nat, rebased: bool)
    requires Placed(src, ps, parts) && Compiled(parts, built) && Describes(at, built)
    requires j < |src| && WellRead(src[j], 4) && y < |src[j].content| && src[j].content[y].loc.vmaddr in ps
    requires i < |parts| && x < |parts[i].content| && BlobAt(a) !in AllIds(parts)
    requires JumpThrough(parts[i].content[x], parts[i].stubs, a, src[j].content[y].loc.vmaddr, rebased)
    ensures
      && Expand(parts[i].content[x], parts[i].stubs).Ok?
      && var f := Final(parts, built, i, x, 0);
      && f.kind.Inst?
      && (InsnBytes(f.kind.insn, f.loc, at).Some? ==>
            && f.kind.insn.dispPos + 4 <= |f.kind.insn.buf|
            && Made(BlobAt(src[j].content[y].loc.vmaddr), 0) in at
            && var goal, end := at[Made(BlobAt(src[j].content[y].loc.vmaddr), 0)], f.loc.vmaddr + |f.kind.insn.buf|;
            (-0x8000_0000 <= goal - end < 0x8000_0000 && goal != end ==>
               (MemTarget(f.kind.insn, f.loc, InsnBytes(f.kind.insn, f.loc, at).value) == goal <==> rebased)))
  {
    hide *;
    TargetKept(src, ps, parts, built, at, j, y);
    if rebased {
      RebasedJump(parts[i].content[x], parts[i].stubs, a, src[j].content[y].loc.vmaddr);
      ImmediatePreserved(src, ps, parts, built, at, i, x, j, y);
    } else {
      UnrebasedLost(parts, built, at, i, x, a, src[j].content[y].loc.vmaddr);
    }
  }

  // ----- where an immediate stands -----

  /** The last four bytes of an emitted instruction are its immediate: the number, or the address of what it points to. */
  lemma {:induction false} ImmediateBytes<R>(insn: Insn<R>, loc: Location, at: map<R, nat>)
    requires InsnBytes(insn, loc, at).Some? && insn.imm.Some?
    ensures
      var bs, i := InsnBytes(insn, loc, at).value, insn.imm.value;
      && |bs| >= 4 && (i.pointee.Some? ==> i.pointee.value in at)
      && bs[|bs| - 4..] == Le(4, if i.pointee.Some? then at[i.pointee.value] else i.value)
  {
    hide Le, PatchMem, PatchBranch;
  }

  /**
   Build gives an immediate the file offset and the address of these four bytes, alone or inside a stub helper, which
   is what its rebase names.
   */
  lemma {:induction false} ImmediateSeated<R>(b: Blob<R>, word: nat, loc: Location)
    requires BuildBlob(b, word, loc).Some? && b.active
    ensures
      var f := BuildBlob(b, word, loc).value.0;
      && (f.kind.Inst? && f.kind.insn.imm.Some? ==>
            var i, n := f.kind.insn.imm.value, |f.kind.insn.buf|;
            i.offset + 4 == loc.offset + n && i.vmaddr + 4 == loc.vmaddr + n)
      && (f.kind.Stub? && f.kind.push.imm.Some? ==>
            var i, n := f.kind.push.imm.value, |f.kind.push.buf|;
            i.offset + 4 == loc.offset + n && i.vmaddr + 4 == loc.vmaddr + n)
  {
    hide Widen;
  }
}
