/**
 From the translated archive to the processor: the bytes emitted for an i386 instruction stand where the layout pass
 put them and implement it, so a run of the i386 program is a run of the emitted image.
 */
module Pipeline {
  import opened Wrappers
  import opened Images
  import opened Blobs
  import opened Layout
  import opened Emit
  import Opcodes
  import opened Placeholders
  import opened Translate
  import opened Link
  import opened References
  import opened Machine
  import opened Decoder
  import opened OpcodesProof
  import opened Simulate

  // ----- bytes in the mapped section -----

  /** The bytes of every active blob of the section stand at its vmaddr in the memory `text`. */
  ghost predicate Mapped(
    text: bytes, content: Content, at: map<Ref, nat>, index: map<nat, uint32>)
  {
    forall r :: 0 <= r < |content| && content[r].active ==>
      var bs := BlobBytes(content[r], WORD, at, index);
      bs.Some? && (bs.value != [] ==> CodeAt(text, 0, content[r].Start().vmaddr, bs.value))
  }

  lemma {:induction false} CodeJoin(text: bytes, base: nat, addr: nat, a: bytes, b: bytes)
    requires CodeAt(text, base, addr, a) && CodeAt(text, base, addr + |a|, b)
    ensures CodeAt(text, base, addr, a + b)
  {
    var lo := addr - base;
    assert text[lo..lo + |a + b|] == text[lo..lo + |a|] + text[lo + |a|..lo + |a| + |b|];
  }

  // ----- the blobs made from one instruction -----

  /** Everything that is known about a compiled section and its bytes. */
  ghost predicate Loaded(
    parts: seq<Part>, built: seq<SectionView<Ref>>, at: map<Ref, nat>, index: map<nat, uint32>, i: nat, text: bytes)
  {
    && Compiled(parts, built) && Describes(at, built) && i < |parts|
    && Mapped(text, built[i].content, at, index)
  }

  /** What blob `x` of section `i` becomes. */
  function Made64(parts: seq<Part>, i: nat, x: nat): Content
    requires i < |parts| && x < |parts[i].content| && Expand(parts[i].content[x], parts[i].stubs).Ok?
  {
    Expand(parts[i].content[x], parts[i].stubs).value
  }

  /** The address of the `k`-th blob made from blob `x`. */
  function Addr(parts: seq<Part>, i: nat, x: nat, k: nat, at: map<Ref, nat>): nat
    requires i < |parts| && x < |parts[i].content|
  {
    var id := Made(parts[i].content[x].id, k);
    if id in at then at[id] else 0
  }

  /** An instruction's blob after linking and building, and its bytes in the text. */
  lemma {:induction false} FinalInsn(
    parts: seq<Part>, built: seq<SectionView<Ref>>, at: map<Ref, nat>, index: map<nat, uint32>, i: nat, text: bytes,
    x: nat, k: nat) returns (f: Blob<Ref>)
    requires Loaded(parts, built, at, index, i, text) && x < |parts[i].content|
    requires Expand(parts[i].content[x], parts[i].stubs).Ok? && k < |Made64(parts, i, x)|
    requires Made64(parts, i, x)[k].kind.Inst? && Made64(parts, i, x)[k].active
    ensures f == Final(parts, built, i, x, k) && f.kind.Inst? && f.loc.vmaddr == Addr(parts, i, x, k, at)
    ensures BuildBlob(ForwardBlob(Made64(parts, i, x)[k], AllIds(parts)), WORD, f.loc).Some?
    ensures f == BuildBlob(ForwardBlob(Made64(parts, i, x)[k], AllIds(parts)), WORD, f.loc).value.0
    ensures f.BuiltSize(WORD) == |f.kind.insn.buf|
    ensures InsnBytes(f.kind.insn, f.loc, at).Some?
    ensures f.kind.insn.buf != [] ==>
      CodeAt(text, 0, f.loc.vmaddr, InsnBytes(f.kind.insn, f.loc, at).value)
  {
    hide *;
    LoadedIs(parts, built, at, index, i, text);
    Spot(parts, built, at, i, x, k);
    Made64Is(parts, i, x);
    FinalIs(parts, built, at, i, x, k);
    f := Final(parts, built, i, x, k);
    InstBuilds(Made64(parts, i, x)[k], AllIds(parts), f.Start());
    LoadedMapped(parts, built, at, index, i, text);
    MappedInsn(text, built[i].content, at, index, SpotOf(parts, i, x, k));
  }

  lemma {:induction false} Made64Is(parts: seq<Part>, i: nat, x: nat)
    requires i < |parts| && x < |parts[i].content| && Expand(parts[i].content[x], parts[i].stubs).Ok?
    ensures Made64(parts, i, x) == Expand(parts[i].content[x], parts[i].stubs).value
  {
  }

  lemma {:induction false} LoadedMapped(
    parts: seq<Part>, built: seq<SectionView<Ref>>, at: map<Ref, nat>, index: map<nat, uint32>, i: nat, text: bytes)
    requires Loaded(parts, built, at, index, i, text)
    ensures i < |parts| == |built| && Mapped(text, built[i].content, at, index)
  {
    LoadedIs(parts, built, at, index, i, text);
    hide Mapped, Compiled, Describes;
  }

  lemma {:induction false} MappedInsn(
    text: bytes, content: Content, at: map<Ref, nat>, index: map<nat, uint32>, r: nat)
    requires Mapped(text, content, at, index) && r < |content| && content[r].kind.Inst? && content[r].active
    ensures
      var f := content[r];
      && InsnBytes(f.kind.insn, f.loc, at).Some?
      && (f.kind.insn.buf != [] ==> CodeAt(text, 0, f.loc.vmaddr, InsnBytes(f.kind.insn, f.loc, at).value))
  {
    var f := content[r];
    InsnNonEmpty(f.kind.insn, f.loc, at);
    hide InsnBytes, CodeAt;
    assert BlobBytes(f, WORD, at, index) == InsnBytes(f.kind.insn, f.loc, at);
  }

  lemma {:induction false} InsnNonEmpty(insn: Insn<Ref>, loc: Location, at: map<Ref, nat>)
    ensures InsnBytes(insn, loc, at).Some? && insn.buf != [] ==> InsnBytes(insn, loc, at).value != []
  {
    hide Le;
  }

  lemma {:induction false} InstBuilds(o: Blob<Ref>, ids: set<Ref>, loc: Location)
    requires o.kind.Inst? && o.active && BuildBlob(ForwardBlob(o, ids), WORD, loc).Some?
    ensures var f := BuildBlob(ForwardBlob(o, ids), WORD, loc).value.0;
      && f.kind.Inst? && f.active && f.loc == loc && f.Start() == loc && f.BuiltSize(WORD) == |f.kind.insn.buf|
      && f.id == o.id
  {
  }

  /** Where the code of the next instruction starts, or the section ends. */
  function Next(parts: seq<Part>, built: seq<SectionView<Ref>>, i: nat, x: nat, at: map<Ref, nat>): nat
    requires i < |parts| && i < |built| && x < |parts[i].content|
  {
    if x + 1 < |parts[i].content| then Addr(parts, i, x + 1, 0, at)
    else built[i].addr + Total(built[i].content, WORD)
  }

  lemma {:induction false} NextIs(parts: seq<Part>, built: seq<SectionView<Ref>>, i: nat, x: nat, at: map<Ref, nat>)
    requires i < |parts| && i < |built| && x < |parts[i].content|
    ensures x + 1 < |parts[i].content| ==> Next(parts, built, i, x, at) == Addr(parts, i, x + 1, 0, at)
    ensures x + 1 == |parts[i].content| ==> Next(parts, built, i, x, at) == built[i].addr + Total(built[i].content, WORD)
  {
    hide Addr, Total;
  }

  /**
   Blobs made from one instruction follow each other; the next instruction's blobs, or the end of the section, follow
   the last of them.
   */
  lemma {:induction false} NextAddr(
    parts: seq<Part>, built: seq<SectionView<Ref>>, at: map<Ref, nat>, i: nat, x: nat, k: nat)
    requires Compiled(parts, built) && Describes(at, built) && i < |parts| && x < |parts[i].content|
    requires Expand(parts[i].content[x], parts[i].stubs).Ok? && k < |Made64(parts, i, x)|
    ensures k + 1 < |Made64(parts, i, x)| ==>
      Addr(parts, i, x, k + 1, at) == Addr(parts, i, x, k, at) + Final(parts, built, i, x, k).BuiltSize(WORD)
    ensures k + 1 == |Made64(parts, i, x)| ==>
      Next(parts, built, i, x, at) == Addr(parts, i, x, k, at) + Final(parts, built, i, x, k).BuiltSize(WORD)
  {
    hide *;
    Spot(parts, built, at, i, x, k);
    NextIs(parts, built, i, x, at);
    var r := SpotOf(parts, i, x, k);
    if k + 1 < |Made64(parts, i, x)| {
      Spot(parts, built, at, i, x, k + 1);
      SpotNext(parts, i, x, k);
      FinalNext(parts, built, i, r);
    } else if x + 1 < |parts[i].content| {
      SpotExpands(parts, built, i, x + 1);
      Spot(parts, built, at, i, x + 1, 0);
      SpotNext(parts, i, x, k);
      FinalNext(parts, built, i, r);
    } else {
      SpotLast(parts, built, i, x, k);
      CompiledIs(parts, built, i);
      TotalSplit(built[i].content, WORD, r);
      assert built[i].content[..r + 1] == built[i].content;
    }
  }

  /** The index of the `k`-th blob made from blob `x` in its new section. */
  function SpotOf(parts: seq<Part>, i: nat, x: nat, k: nat): nat
    requires i < |parts| && ExpandAll(parts[i].content, parts[i].stubs).Ok? && x < |parts[i].content|
  {
    Pos(parts[i].content, parts[i].stubs, x) + k
  }

  lemma {:induction false} SpotExpands(parts: seq<Part>, built: seq<SectionView<Ref>>, i: nat, x: nat)
    requires Compiled(parts, built) && i < |parts| && x < |parts[i].content|
    ensures Expand(parts[i].content[x], parts[i].stubs).Ok? && |Made64(parts, i, x)| > 0
  {
    PosFacts(parts[i].content, parts[i].stubs, x);
    hide Expand;
  }

  lemma {:induction false} SpotNext(parts: seq<Part>, i: nat, x: nat, k: nat)
    requires i < |parts| && ExpandAll(parts[i].content, parts[i].stubs).Ok? && x < |parts[i].content|
    requires Expand(parts[i].content[x], parts[i].stubs).Ok? && k < |Made64(parts, i, x)|
    ensures SpotOf(parts, i, x, k + 1) == SpotOf(parts, i, x, k) + 1
    ensures k + 1 == |Made64(parts, i, x)| && x + 1 < |parts[i].content| ==>
      SpotOf(parts, i, x + 1, 0) == SpotOf(parts, i, x, k) + 1
  {
    hide Expand, ExpandAll, Pos;
    PosFacts(parts[i].content, parts[i].stubs, x);
  }

  /** The last blob made from the last blob of a section is the last of the new section. */
  lemma {:induction false} SpotLast(parts: seq<Part>, built: seq<SectionView<Ref>>, i: nat, x: nat, k: nat)
    requires Compiled(parts, built) && i < |parts| && x + 1 == |parts[i].content|
    requires Expand(parts[i].content[x], parts[i].stubs).Ok? && k + 1 == |Made64(parts, i, x)|
    requires ExpandAll(parts[i].content, parts[i].stubs).Ok?
    ensures SpotOf(parts, i, x, k) + 1 == |built[i].content|
  {
    hide Expand, ExpandAll, Pos, Compiled;
    PosFacts(parts[i].content, parts[i].stubs, x);
    PosEnd(parts[i].content, parts[i].stubs);
    CompiledIs(parts, built, i);
  }

  lemma {:induction false} Spot(
    parts: seq<Part>, built: seq<SectionView<Ref>>, at: map<Ref, nat>, i: nat, x: nat, k: nat)
    requires Compiled(parts, built) && Describes(at, built) && i < |parts| && x < |parts[i].content|
    requires Expand(parts[i].content[x], parts[i].stubs).Ok? && k < |Made64(parts, i, x)|
    ensures |built| == |parts| && ExpandAll(parts[i].content, parts[i].stubs).Ok?
    ensures
      var r := SpotOf(parts, i, x, k);
      && r < |built[i].content| && built[i].content[r] == Final(parts, built, i, x, k)
      && Addr(parts, i, x, k, at) == built[i].content[r].Start().vmaddr
  {
    hide Expand, ExpandAll, BuildBlob, ForwardBlob;
    PosFacts(parts[i].content, parts[i].stubs, x);
    FinalIs(parts, built, at, i, x, k);
  }

  /** Where the code after the `k`-th blob made from blob `x` starts. */
  function After(parts: seq<Part>, built: seq<SectionView<Ref>>, i: nat, x: nat, k: nat, at: map<Ref, nat>): nat
    requires i < |parts| && i < |built| && x < |parts[i].content| && Expand(parts[i].content[x], parts[i].stubs).Ok?
  {
    if k + 1 < |Made64(parts, i, x)| then Addr(parts, i, x, k + 1, at) else Next(parts, built, i, x, at)
  }

  /** A new instruction without references is emitted as it is. */
  lemma {:induction false} PlainPart(
    parts: seq<Part>, built: seq<SectionView<Ref>>, at: map<Ref, nat>, index: map<nat, uint32>, i: nat, text: bytes,
    x: nat, k: nat, buf: bytes)
    requires Loaded(parts, built, at, index, i, text) && x < |parts[i].content|
    requires Expand(parts[i].content[x], parts[i].stubs).Ok? && k < |Made64(parts, i, x)|
    requires Made64(parts, i, x)[k].active && Made64(parts, i, x)[k].kind == Inst(Plainly(buf)) && buf != []
    ensures CodeAt(text, 0, Addr(parts, i, x, k, at), buf)
    ensures After(parts, built, i, x, k, at) == Addr(parts, i, x, k, at) + |buf|
  {
    hide Expand, Compiled, Describes, Mapped, Addr, Next, CodeAt, Final;
    var f := FinalInsn(parts, built, at, index, i, text, x, k);
    NextAddr(parts, built, at, i, x, k);
    PlainBuilt(Made64(parts, i, x)[k], AllIds(parts), f.loc, at, buf);
  }

  lemma {:induction false} PlainBuilt(o: Blob<Ref>, ids: set<Ref>, loc: Location, at: map<Ref, nat>, buf: bytes)
    requires o.active && o.kind == Inst(Plainly(buf)) && BuildBlob(ForwardBlob(o, ids), WORD, loc).Some?
    ensures var f := BuildBlob(ForwardBlob(o, ids), WORD, loc).value.0;
      f.kind.Inst? && f.kind.insn.buf == buf && InsnBytes(f.kind.insn, f.loc, at) == Some(buf)
  {
  }

  /** A new instruction with a rip-relative operand reaches what it refers to. */
  lemma {:induction false} RelativePart(
    parts: seq<Part>, built: seq<SectionView<Ref>>, at: map<Ref, nat>, index: map<nat, uint32>, i: nat, text: bytes,
    x: nat, k: nat, buf: bytes, pos: nat, to: Ref) returns (g: bytes)
    requires Loaded(parts, built, at, index, i, text) && x < |parts[i].content|
    requires Expand(parts[i].content[x], parts[i].stubs).Ok? && k < |Made64(parts, i, x)|
    requires Made64(parts, i, x)[k].active && Made64(parts, i, x)[k].kind == Inst(Relative(buf, pos, to))
    requires pos + 4 == |buf| && Forward(Some(to), AllIds(parts)).Some?
    ensures |g| == 4 && CodeAt(text, 0, Addr(parts, i, x, k, at), buf[..pos] + g)
    ensures After(parts, built, i, x, k, at) == Addr(parts, i, x, k, at) + |buf|
    ensures Forward(Some(to), AllIds(parts)).value in at
    ensures var d := at[Forward(Some(to), AllIds(parts)).value] - After(parts, built, i, x, k, at);
      -0x8000_0000 <= d < 0x8000_0000 ==> Signed32(g) == d
  {
    hide Expand, Compiled, Describes, Mapped, Addr, Next, CodeAt, Final, Forward, Le, Signed32;
    var f := FinalInsn(parts, built, at, index, i, text, x, k);
    NextAddr(parts, built, at, i, x, k);
    g := RelativeBuilt(Made64(parts, i, x)[k], AllIds(parts), f.loc, at, buf, pos, to);
  }

  lemma {:induction false} RelativeBuilt(
    o: Blob<Ref>, ids: set<Ref>, loc: Location, at: map<Ref, nat>, buf: bytes, pos: nat, to: Ref) returns (g: bytes)
    requires o.active && o.kind == Inst(Relative(buf, pos, to)) && BuildBlob(ForwardBlob(o, ids), WORD, loc).Some?
    requires pos + 4 == |buf| && Forward(Some(to), ids).Some?
    requires
      var f := BuildBlob(ForwardBlob(o, ids), WORD, loc).value.0;
      f.kind.Inst? && InsnBytes(f.kind.insn, f.loc, at).Some?
    ensures Forward(Some(to), ids).value in at && |g| == 4
    ensures
      var f := BuildBlob(ForwardBlob(o, ids), WORD, loc).value.0;
      f.kind.insn.buf == buf && InsnBytes(f.kind.insn, f.loc, at) == Some(buf[..pos] + g)
    ensures
      var d := at[Forward(Some(to), ids).value] - (loc.vmaddr + |buf|);
      -0x8000_0000 <= d < 0x8000_0000 ==> Signed32(g) == d
  {
    hide Forward, Le, Signed32;
    var d := at[Forward(Some(to), ids).value] - (loc.vmaddr + |buf|);
    g := Le(4, d);
    assert buf[pos + 4..] == [];
    assert Patch(buf, pos, d) == buf[..pos] + Le(4, d);
    Signed32Iff(d);
  }

  /** A relative branch, widened or not, reaches what it refers to. */
  lemma {:induction false} BranchPart(
    parts: seq<Part>, built: seq<SectionView<Ref>>, at: map<Ref, nat>, index: map<nat, uint32>, i: nat, text: bytes,
    x: nat, k: nat, insn: Insn<Ref>, head: bytes, to: Ref) returns (g: bytes)
    requires Loaded(parts, built, at, index, i, text) && x < |parts[i].content|
    requires Expand(parts[i].content[x], parts[i].stubs).Ok? && k < |Made64(parts, i, x)|
    requires Made64(parts, i, x)[k].active && Made64(parts, i, x)[k].kind == Inst(insn) && WideBranch(insn, head, to)
    requires Forward(Some(to), AllIds(parts)).Some?
    ensures |g| == 4 && CodeAt(text, 0, Addr(parts, i, x, k, at), head + g)
    ensures After(parts, built, i, x, k, at) == Addr(parts, i, x, k, at) + |head| + 4
    ensures Forward(Some(to), AllIds(parts)).value in at
    ensures var d := at[Forward(Some(to), AllIds(parts)).value] - After(parts, built, i, x, k, at);
      -0x8000_0000 <= d < 0x8000_0000 ==> Signed32(g) == d
  {
    hide Expand, Compiled, Describes, Mapped, Addr, Next, CodeAt, Final, Forward, Le, Signed32, WideBranch;
    var f := FinalInsn(parts, built, at, index, i, text, x, k);
    NextAddr(parts, built, at, i, x, k);
    g := BranchBuilt(Made64(parts, i, x)[k], AllIds(parts), f.loc, at, insn, head, to);
  }

  /** A branch to `to` and nothing else, whose wide form is `head` and a 32-bit displacement. */
  predicate WideBranch(insn: Insn<Ref>, head: bytes, to: Ref)
  {
    && Widen(insn).Some? && HasRel32(Widen(insn).value.iform)
    && |Widen(insn).value.buf| == |head| + 4 && Widen(insn).value.buf[..|head|] == head
    && insn.brdisp == Some(to) && insn.memdisp.None? && insn.imm.None?
  }

  lemma {:induction false} BranchBuilt(
    o: Blob<Ref>, ids: set<Ref>, loc: Location, at: map<Ref, nat>, insn: Insn<Ref>, head: bytes, to: Ref)
    returns (g: bytes)
    requires o.active && o.kind == Inst(insn) && WideBranch(insn, head, to)
    requires BuildBlob(ForwardBlob(o, ids), WORD, loc).Some? && Forward(Some(to), ids).Some?
    requires
      var f := BuildBlob(ForwardBlob(o, ids), WORD, loc).value.0;
      f.kind.Inst? && InsnBytes(f.kind.insn, f.loc, at).Some?
    ensures Forward(Some(to), ids).value in at && |g| == 4
    ensures
      var f := BuildBlob(ForwardBlob(o, ids), WORD, loc).value.0;
      |f.kind.insn.buf| == |head| + 4 && InsnBytes(f.kind.insn, f.loc, at) == Some(head + g)
    ensures
      var d := at[Forward(Some(to), ids).value] - (loc.vmaddr + |head| + 4);
      -0x8000_0000 <= d < 0x8000_0000 ==> Signed32(g) == d
  {
    var d := at[Forward(Some(to), ids).value] - (loc.vmaddr + |head| + 4);
    BranchWidened(insn, Forward(Some(to), ids));
    hide Forward, Le, Signed32, Widen;
    g := Le(4, d);
    var w := Widen(insn).value.buf;
    assert w[|w| - 4 + 4..] == [];
    assert Patch(w, |w| - 4, d) == head + Le(4, d);
    Signed32Iff(d);
  }

  /** Widening does not look at pointers. */
  lemma {:induction false} BranchWidened(insn: Insn<Ref>, to: Option<Ref>)
    requires Widen(insn).Some?
    ensures
      var w := Widen(insn.(memdisp := None, brdisp := to));
      w.Some? && w.value == Widen(insn).value.(memdisp := None, brdisp := to)
  {
  }

  /** A copied instruction whose constant immediate is its last four bytes. */
  lemma {:induction false} ConstPart(
    parts: seq<Part>, built: seq<SectionView<Ref>>, at: map<Ref, nat>, index: map<nat, uint32>, i: nat, text: bytes,
    x: nat, k: nat, insn: Insn<Ref>, head: bytes)
    requires Loaded(parts, built, at, index, i, text) && x < |parts[i].content|
    requires Expand(parts[i].content[x], parts[i].stubs).Ok? && k < |Made64(parts, i, x)|
    requires Made64(parts, i, x)[k].active && Made64(parts, i, x)[k].kind == Inst(insn) && HasConst(insn, head)
    ensures CodeAt(text, 0, Addr(parts, i, x, k, at), head + Le(4, insn.imm.value.value))
    ensures After(parts, built, i, x, k, at) == Addr(parts, i, x, k, at) + |head| + 4
  {
    hide Expand, Compiled, Describes, Mapped, Addr, Next, CodeAt, Final, Le, HasConst;
    var f := FinalInsn(parts, built, at, index, i, text, x, k);
    NextAddr(parts, built, at, i, x, k);
    ConstBuilt(Made64(parts, i, x)[k], AllIds(parts), f.loc, at, insn, head);
    HasConstIs(insn, head);
  }

  predicate HasConst(insn: Insn<Ref>, head: bytes)
  {
    && insn.iform.MovGprImm? && |insn.buf| == |head| + 4 && insn.buf[..|head|] == head
    && insn.imm.Some? && insn.imm.value.pointee.None? && insn.memdisp.None? && insn.brdisp.None?
  }

  lemma {:induction false} HasConstIs(insn: Insn<Ref>, head: bytes)
    requires HasConst(insn, head)
    ensures insn.imm.Some? && insn.buf != []
  {
  }

  lemma {:induction false} ConstBuilt(
    o: Blob<Ref>, ids: set<Ref>, loc: Location, at: map<Ref, nat>, insn: Insn<Ref>, head: bytes)
    requires o.active && o.kind == Inst(insn) && HasConst(insn, head) && BuildBlob(ForwardBlob(o, ids), WORD, loc).Some?
    ensures var f := BuildBlob(ForwardBlob(o, ids), WORD, loc).value.0;
      && f.kind.Inst? && |f.kind.insn.buf| == |head| + 4
      && InsnBytes(f.kind.insn, f.loc, at) == Some(head + Le(4, insn.imm.value.value))
  {
    hide Le;
    var w := insn.buf;
    assert w[|w| - 4 + 4..] == [];
    assert Patch(w, |w| - 4, insn.imm.value.value) == head + Le(4, insn.imm.value.value);
  }

  // ----- what an i386 instruction means -----

  predicate NotRebased(insn: Insn<Ref>)
  {
    insn.imm.None? || insn.imm.value.pointee.None?
  }

  /** A branch whose target is the placeholder now at `target`. */
  ghost predicate BranchesTo(insn: Insn<Ref>, ids: set<Ref>, at: map<Ref, nat>, target: nat)
  {
    && insn.brdisp.Some? && insn.brdisp.value.PlaceAt? && insn.brdisp.value in ids
    && Made(insn.brdisp.value, 0) in at && at[Made(insn.brdisp.value, 0)] == target
    && insn.memdisp.None? && insn.imm.None?
  }

  /** The decoded instruction `insn` is `op`, with code addresses those of the new layout. */
  ghost predicate Means(insn: Insn<Ref>, ids: set<Ref>, at: map<Ref, nat>, op: Op32)
  {
    match op
    case PushReg(r) => insn.iform.PushGpr? && insn.reg0 == r < 8 && NotRebased(insn)
    case PushConst(imm) => (insn.iform.PushImmB? || insn.iform.PushImmZ?) && insn.operand == imm && NotRebased(insn)
    case PopReg(r) => insn.iform.PopGpr? && insn.reg0 == r < 8 && NotRebased(insn)
    case CallTo(target) => insn.iform.CallRelZ? && BranchesTo(insn, ids, at, target)
    case CallReg(r) => insn.iform.CallGpr? && insn.reg0 == r < 8 && NotRebased(insn)
    case Ret => insn.iform.RetNear? && NotRebased(insn)
    case Jump(target) =>
      BranchesTo(insn, ids, at, target) &&
      ((insn.iform.JmpRelB? && |insn.buf| == 2) || (insn.iform.JmpRelZ? && |insn.buf| == 5 && insn.buf[0] == 0xe9))
    case Branch(cc, target) =>
      cc < 16 && BranchesTo(insn, ids, at, target) &&
      ((insn.iform.JccRelB? && |insn.buf| == 2 && insn.buf[0] == 0x70 + cc) ||
       (insn.iform.JccRelZ? && |insn.buf| == 6 && insn.buf[0] == 0x0f && insn.buf[1] == 0x80 + cc))
    case LoadConst(r, imm) => r < 8 && HasConst(insn, [0xb8 + r]) && insn.imm.value.value == imm
    case LoadAddress(r, target) =>
      && insn.iform.MovGprImm? && insn.reg0 == r < 8 && insn.imm.Some? && insn.imm.value.pointee.Some?
      && var p := insn.imm.value.pointee.value;
         p.PlaceAt? && p in ids && Made(p, 0) in at && at[Made(p, 0)] == target
    case IncReg(r) => insn.iform.IncGpr? && insn.reg0 == r < 8 && NotRebased(insn)
    case DecReg(r) => insn.iform.DecGpr? && insn.reg0 == r < 8 && NotRebased(insn)
    case PushMem(m) => insn.iform.PushMem? && NotRebased(insn) && PushOperand(insn.buf) == Some(m) && insn.buf[1] != 0x35
    case LoadMem(r, m) => Accesses(insn, 0x8b, r, m)
    case StoreMem(m, r) => Accesses(insn, 0x89, r, m)
    case LeaMem(r, m) => Accesses(insn, 0x8d, r, m)
  }

  /** A copied instruction without references: register `r` and the operand `m`, which is not an absolute address. */
  predicate Accesses(insn: Insn<Ref>, opcode: byte, r: nat, m: Mem32)
  {
    && insn.iform.Plain? && insn.memdisp.None? && insn.brdisp.None? && insn.imm.None?
    && RegMem(insn.buf, opcode) == Some((r, m)) && !Absolute(insn.buf[1])
  }

  /** The displacements a translated instruction needs fit 32 bits. */
  predicate Near(op: Op32, next: nat)
  {
    match op
    case CallTo(target) => -0x8000_0000 <= target - next < 0x8000_0000
    case Jump(target) => -0x8000_0000 <= target - next < 0x8000_0000
    case Branch(_, target) => -0x8000_0000 <= target - next < 0x8000_0000
    case LoadAddress(_, target) => -0x8000_0000 <= target - next < 0x8000_0000
    case _ => true
  }

  /** Blob `k` made from blob `x` is a plain instruction. */
  ghost predicate IsPlain(parts: seq<Part>, i: nat, x: nat, k: nat, buf: bytes)
    requires i < |parts| && x < |parts[i].content| && Expand(parts[i].content[x], parts[i].stubs).Ok?
  {
    k < |Made64(parts, i, x)| && Made64(parts, i, x)[k].active && Made64(parts, i, x)[k].kind == Inst(Plainly(buf))
    && buf != []
  }

  lemma {:induction false} AfterInner(
    parts: seq<Part>, built: seq<SectionView<Ref>>, i: nat, x: nat, k: nat, at: map<Ref, nat>)
    requires i < |parts| && i < |built| && x < |parts[i].content| && Expand(parts[i].content[x], parts[i].stubs).Ok?
    ensures k + 1 < |Made64(parts, i, x)| ==> After(parts, built, i, x, k, at) == Addr(parts, i, x, k + 1, at)
    ensures k + 1 == |Made64(parts, i, x)| ==> After(parts, built, i, x, k, at) == Next(parts, built, i, x, at)
  {
    hide Expand, Addr, Next;
  }

  lemma {:induction false} LoadedIs(
    parts: seq<Part>, built: seq<SectionView<Ref>>, at: map<Ref, nat>, index: map<nat, uint32>, i: nat, text: bytes)
    requires Loaded(parts, built, at, index, i, text)
    ensures i < |parts| && |built| == |parts| && Compiled(parts, built) && Describes(at, built)
  {
  }

  /** Two plain instructions in a row. */
  lemma {:induction false} TwoParts(
    parts: seq<Part>, built: seq<SectionView<Ref>>, at: map<Ref, nat>, index: map<nat, uint32>, i: nat, text: bytes,
    x: nat, k: nat, a: bytes, b: bytes)
    requires Loaded(parts, built, at, index, i, text) && x < |parts[i].content|
    requires Expand(parts[i].content[x], parts[i].stubs).Ok?
    requires IsPlain(parts, i, x, k, a) && IsPlain(parts, i, x, k + 1, b)
    ensures CodeAt(text, 0, Addr(parts, i, x, k, at), a + b)
    ensures After(parts, built, i, x, k + 1, at) == Addr(parts, i, x, k, at) + |a + b|
  {
    hide *;
    LoadedIs(parts, built, at, index, i, text);
    PlainMore(parts, i, x, k, a);
    PlainMore(parts, i, x, k + 1, b);
    PlainPart(parts, built, at, index, i, text, x, k, a);
    PlainPart(parts, built, at, index, i, text, x, k + 1, b);
    AfterInner(parts, built, i, x, k, at);
    CodeJoin(text, 0, Addr(parts, i, x, k, at), a, b);
  }

  /** The two scratch pushes and the store of a 32-bit push. */
  lemma {:induction false} PushParts(
    parts: seq<Part>, built: seq<SectionView<Ref>>, at: map<Ref, nat>, index: map<nat, uint32>, i: nat, text: bytes,
    x: nat, k: nat, store: bytes)
    requires Loaded(parts, built, at, index, i, text) && x < |parts[i].content|
    requires Expand(parts[i].content[x], parts[i].stubs).Ok?
    requires IsPlain(parts, i, x, k, Opcodes.PushAx()) && IsPlain(parts, i, x, k + 1, Opcodes.PushAx())
    requires IsPlain(parts, i, x, k + 2, store)
    ensures CodeAt(text, 0, Addr(parts, i, x, k, at), PushCode(store))
    ensures After(parts, built, i, x, k + 2, at) == Addr(parts, i, x, k, at) + |PushCode(store)|
  {
    hide *;
    var push := Opcodes.PushAx();
    LoadedIs(parts, built, at, index, i, text);
    PushCodeIs(store);
    PlainMore(parts, i, x, k, push);
    PlainMore(parts, i, x, k + 1, push);
    PlainMore(parts, i, x, k + 2, store);
    TwoParts(parts, built, at, index, i, text, x, k, push, push);
    PlainPart(parts, built, at, index, i, text, x, k + 2, store);
    AfterInner(parts, built, i, x, k + 1, at);
    CodeJoin(text, 0, Addr(parts, i, x, k, at), push + push, store);
  }

  lemma {:induction false} PlainMore(parts: seq<Part>, i: nat, x: nat, k: nat, buf: bytes)
    requires i < |parts| && x < |parts[i].content| && Expand(parts[i].content[x], parts[i].stubs).Ok?
    requires IsPlain(parts, i, x, k, buf)
    ensures k < |Made64(parts, i, x)| && Made64(parts, i, x)[k].active
    ensures Made64(parts, i, x)[k].kind == Inst(Plainly(buf)) && buf != []
  {
  }

  /** A placeholder takes no room. */
  lemma {:induction false} MarkPart(
    parts: seq<Part>, built: seq<SectionView<Ref>>, at: map<Ref, nat>, i: nat, x: nat, k: nat)
    requires Compiled(parts, built) && Describes(at, built) && i < |parts| && x < |parts[i].content|
    requires Expand(parts[i].content[x], parts[i].stubs).Ok? && k < |Made64(parts, i, x)|
    requires Made64(parts, i, x)[k].kind.Placeholder?
    ensures After(parts, built, i, x, k, at) == Addr(parts, i, x, k, at)
  {
    hide *;
    CompiledIs(parts, built, i);
    MarkFinal(parts, built, at, i, x, k);
    NextAddr(parts, built, at, i, x, k);
    AfterInner(parts, built, i, x, k, at);
  }

  lemma {:induction false} MarkFinal(
    parts: seq<Part>, built: seq<SectionView<Ref>>, at: map<Ref, nat>, i: nat, x: nat, k: nat)
    requires Compiled(parts, built) && Describes(at, built) && i < |parts| && x < |parts[i].content|
    requires Expand(parts[i].content[x], parts[i].stubs).Ok? && k < |Made64(parts, i, x)|
    requires Made64(parts, i, x)[k].kind.Placeholder?
    ensures Final(parts, built, i, x, k).BuiltSize(WORD) == 0
  {
    FinalIs(parts, built, at, i, x, k);
    var f := Final(parts, built, i, x, k);
    hide Expand, Compiled, Describes, Final;
    MarkIsEmpty(Made64(parts, i, x)[k], AllIds(parts), f.Start());
  }

  // ----- one case after another -----

  /** Blob `x` is an instruction that means `op`, its code addresses fit 32 bits and its displacements too. */
  ghost predicate Translates(
    parts: seq<Part>, built: seq<SectionView<Ref>>, at: map<Ref, nat>, index: map<nat, uint32>, i: nat, text: bytes,
    x: nat, op: Op32)
  {
    && Loaded(parts, built, at, index, i, text) && x < |parts[i].content|
    && parts[i].content[x].kind.Inst? && Means(parts[i].content[x].kind.insn, AllIds(parts), at, op)
    && Next(parts, built, i, x, at) < TWO_32 && Near(op, Next(parts, built, i, x, at))
  }

  lemma {:induction false} ExpandsOf(parts: seq<Part>, built: seq<SectionView<Ref>>, i: nat, x: nat, kinds: seq<Kind<Ref>>)
    requires Compiled(parts, built) && i < |parts| && x < |parts[i].content|
    requires Kinds(parts[i].content[x], parts[i].stubs) == Ok(kinds)
    ensures Expand(parts[i].content[x], parts[i].stubs).Ok? && |Made64(parts, i, x)| == |kinds|
    ensures forall k :: 0 <= k < |kinds| ==> Made64(parts, i, x)[k].kind == kinds[k] && Made64(parts, i, x)[k].active
  {
    hide Kinds, Compiled;
  }

  /** The `k`-th blob, if it is to be a plain instruction. */
  lemma {:induction false} PlainOf(
    parts: seq<Part>, built: seq<SectionView<Ref>>, i: nat, x: nat, kinds: seq<Kind<Ref>>, k: nat, buf: bytes)
    requires Compiled(parts, built) && i < |parts| && x < |parts[i].content|
    requires Kinds(parts[i].content[x], parts[i].stubs) == Ok(kinds) && k < |kinds|
    requires kinds[k] == Inst(Plainly(buf)) && buf != []
    ensures Expand(parts[i].content[x], parts[i].stubs).Ok? && |Made64(parts, i, x)| == |kinds|
    ensures IsPlain(parts, i, x, k, buf)
  {
    ExpandsOf(parts, built, i, x, kinds);
    hide Kinds, Compiled, Expand;
  }

  lemma {:induction false} PushImplemented(
    parts: seq<Part>, built: seq<SectionView<Ref>>, at: map<Ref, nat>, index: map<nat, uint32>, i: nat, text: bytes,
    x: nat, store: bytes)
    requires Loaded(parts, built, at, index, i, text) && x < |parts[i].content| && store != []
    requires Kinds(parts[i].content[x], parts[i].stubs) ==
             Ok([Inst(Plainly(Opcodes.PushAx())), Inst(Plainly(Opcodes.PushAx())), Inst(Plainly(store))])
    ensures CodeAt(text, 0, Addr(parts, i, x, 0, at), PushCode(store))
    ensures Next(parts, built, i, x, at) == Addr(parts, i, x, 0, at) + |PushCode(store)|
  {
    hide *;
    var push := Opcodes.PushAx();
    var kinds := [Inst(Plainly(push)), Inst(Plainly(push)), Inst(Plainly(store))];
    LoadedIs(parts, built, at, index, i, text);
    PushCodeIs(store);
    PlainOf(parts, built, i, x, kinds, 0, push);
    PlainOf(parts, built, i, x, kinds, 1, push);
    PlainOf(parts, built, i, x, kinds, 2, store);
    PushParts(parts, built, at, index, i, text, x, 0, store);
    AfterInner(parts, built, i, x, 2, at);
  }

  lemma {:induction false} OneImplemented(
    parts: seq<Part>, built: seq<SectionView<Ref>>, at: map<Ref, nat>, index: map<nat, uint32>, i: nat, text: bytes,
    x: nat, code: bytes)
    requires Loaded(parts, built, at, index, i, text) && x < |parts[i].content| && code != []
    requires Kinds(parts[i].content[x], parts[i].stubs) == Ok([Inst(Plainly(code))])
    ensures CodeAt(text, 0, Addr(parts, i, x, 0, at), code)
    ensures Next(parts, built, i, x, at) == Addr(parts, i, x, 0, at) + |code|
  {
    hide *;
    LoadedIs(parts, built, at, index, i, text);
    PlainOf(parts, built, i, x, [Inst(Plainly(code))], 0, code);
    PlainMore(parts, i, x, 0, code);
    PlainPart(parts, built, at, index, i, text, x, 0, code);
    AfterInner(parts, built, i, x, 0, at);
  }

  lemma {:induction false} PopShapes(r: nat)
    requires r < 16
    ensures PopCode(r) == Opcodes.MovR32MemRsp(r) + Opcodes.LeaRspRsp4()
    ensures Opcodes.MovR32MemRsp(r) != [] && Opcodes.LeaRspRsp4() != []
    ensures PopR32(r) == [Inst(Plainly(Opcodes.MovR32MemRsp(r))), Inst(Plainly(Opcodes.LeaRspRsp4()))]
  {
    hide Plainly;
  }

  lemma {:induction false} JumpShape(r: nat)
    requires r < 16
    ensures Opcodes.JmpR64(r) != [] && (r < 8 ==> |Opcodes.JmpR64(r)| == 2)
    ensures R11 == 11 && TWO_32 == 0x1_0000_0000
  {
  }

  lemma {:induction false} PopImplemented(
    parts: seq<Part>, built: seq<SectionView<Ref>>, at: map<Ref, nat>, index: map<nat, uint32>, i: nat, text: bytes,
    x: nat, r: nat, rest: seq<Kind<Ref>>)
    requires Loaded(parts, built, at, index, i, text) && x < |parts[i].content| && r < 16
    requires Kinds(parts[i].content[x], parts[i].stubs) == Ok(PopR32(r) + rest)
    ensures Expand(parts[i].content[x], parts[i].stubs).Ok? && |Made64(parts, i, x)| == 2 + |rest|
    ensures CodeAt(text, 0, Addr(parts, i, x, 0, at), PopCode(r))
    ensures After(parts, built, i, x, 1, at) == Addr(parts, i, x, 0, at) + |PopCode(r)|
  {
    hide *;
    PopShapes(r);
    var load, lea := Opcodes.MovR32MemRsp(r), Opcodes.LeaRspRsp4();
    LoadedIs(parts, built, at, index, i, text);
    PlainOf(parts, built, i, x, PopR32(r) + rest, 0, load);
    PlainOf(parts, built, i, x, PopR32(r) + rest, 1, lea);
    TwoParts(parts, built, at, index, i, text, x, 0, load, lea);
  }

  lemma {:induction false} RetImplemented(
    parts: seq<Part>, built: seq<SectionView<Ref>>, at: map<Ref, nat>, index: map<nat, uint32>, i: nat, text: bytes,
    x: nat)
    requires Loaded(parts, built, at, index, i, text) && x < |parts[i].content|
    requires Kinds(parts[i].content[x], parts[i].stubs) == Ok(PopR32(R11) + [Inst(Plainly(Opcodes.JmpR64(R11)))])
    ensures CodeAt(text, 0, Addr(parts, i, x, 0, at), PopCode(R11) + Opcodes.JmpR64(R11))
    ensures Next(parts, built, i, x, at) == Addr(parts, i, x, 0, at) + |PopCode(R11) + Opcodes.JmpR64(R11)|
  {
    hide *;
    JumpShape(11);
    PopShapes(11);
    var jump, rest := Opcodes.JmpR64(R11), [Inst(Plainly(Opcodes.JmpR64(R11)))];
    LoadedIs(parts, built, at, index, i, text);
    PopImplemented(parts, built, at, index, i, text, x, R11, rest);
    PlainOf(parts, built, i, x, PopR32(R11) + rest, 2, jump);
    PlainMore(parts, i, x, 2, jump);
    PlainPart(parts, built, at, index, i, text, x, 2, jump);
    AfterInner(parts, built, i, x, 1, at);
    AfterInner(parts, built, i, x, 2, at);
    CodeJoin(text, 0, Addr(parts, i, x, 0, at), PopCode(R11), jump);
  }

  /** lea and push of an expanded call, and where its jump starts; the placeholder behind it is the return point. */
  lemma {:induction false} CallImplemented(
    parts: seq<Part>, built: seq<SectionView<Ref>>, at: map<Ref, nat>, index: map<nat, uint32>, i: nat, text: bytes,
    x: nat, jmp: Insn<Ref>, len: nat) returns (f: bytes)
    requires Loaded(parts, built, at, index, i, text) && x < |parts[i].content|
    requires Kinds(parts[i].content[x], parts[i].stubs) == Ok(CallOp(parts[i].content[x].id, jmp))
    requires Expand(parts[i].content[x], parts[i].stubs).Ok? && |Made64(parts, i, x)| == 6
    requires After(parts, built, i, x, 4, at) == Addr(parts, i, x, 4, at) + len && len < 0x1000
    ensures |f| == 4 && |PushCode(CallStore())| == 8
    ensures CodeAt(text, 0, Addr(parts, i, x, 0, at), Opcodes.LeaR11Rip()[..3] + f + PushCode(CallStore()))
    ensures Addr(parts, i, x, 4, at) == Addr(parts, i, x, 0, at) + 15
    ensures Next(parts, built, i, x, at) == Addr(parts, i, x, 0, at) + 15 + len
    ensures Signed32(f) == 8 + len
  {
    hide *;
    LoadedIs(parts, built, at, index, i, text);
    CallParts(parts, built, i, x, jmp);
    var id := parts[i].content[x].id;
    f := RelativePart(parts, built, at, index, i, text, x, 0, Opcodes.LeaR11Rip(), 3, Made(id, 5));
    PushParts(parts, built, at, index, i, text, x, 1, CallStore());
    MarkPart(parts, built, at, i, x, 5);
    AfterInner(parts, built, i, x, 0, at);
    AfterInner(parts, built, i, x, 3, at);
    AfterInner(parts, built, i, x, 4, at);
    AfterInner(parts, built, i, x, 5, at);
    AddrOf(parts, i, x, 5, at);
    CodeJoin(text, 0, Addr(parts, i, x, 0, at), Opcodes.LeaR11Rip()[..3] + f, PushCode(CallStore()));
  }

  lemma {:induction false} AddrOf(parts: seq<Part>, i: nat, x: nat, k: nat, at: map<Ref, nat>)
    requires i < |parts| && x < |parts[i].content| && Made(parts[i].content[x].id, k) in at
    ensures Addr(parts, i, x, k, at) == at[Made(parts[i].content[x].id, k)]
  {
  }

  lemma {:induction false} CallParts(parts: seq<Part>, built: seq<SectionView<Ref>>, i: nat, x: nat, jmp: Insn<Ref>)
    requires Compiled(parts, built) && i < |parts| && x < |parts[i].content|
    requires Kinds(parts[i].content[x], parts[i].stubs) == Ok(CallOp(parts[i].content[x].id, jmp))
    ensures Expand(parts[i].content[x], parts[i].stubs).Ok? && |Made64(parts, i, x)| == 6
    ensures
      var id, m := parts[i].content[x].id, Made64(parts, i, x);
      && m[0].active && m[0].kind == Inst(Relative(Opcodes.LeaR11Rip(), 3, Made(id, 5)))
      && Forward(Some(Made(id, 5)), AllIds(parts)) == Some(Made(id, 5))
      && m[4].active && m[4].kind == Inst(jmp) && m[5].kind.Placeholder?
    ensures IsPlain(parts, i, x, 1, Opcodes.PushAx()) && IsPlain(parts, i, x, 2, Opcodes.PushAx())
    ensures IsPlain(parts, i, x, 3, CallStore()) && |PushCode(CallStore())| == 8 && |Opcodes.LeaR11Rip()| == 7
    ensures |Opcodes.LeaR11Rip()[..3]| == 3
  {
    var id := parts[i].content[x].id;
    assert CallOp(id, jmp)[0] == Inst(Relative(Opcodes.LeaR11Rip(), 3, Made(id, 5)));
    assert CallOp(id, jmp)[1] == CallOp(id, jmp)[2] == Inst(Plainly(Opcodes.PushAx()));
    assert CallOp(id, jmp)[3] == Inst(Plainly(CallStore()));
    assert CallOp(id, jmp)[4] == Inst(jmp) && CallOp(id, jmp)[5] == Placeholder && |CallOp(id, jmp)| == 6;
    ExpandsOf(parts, built, i, x, CallOp(id, jmp));
    hide Kinds, Compiled, Expand, CallOp, Plainly, Relative;
  }

  lemma {:induction false} CallRegImplemented(
    parts: seq<Part>, built: seq<SectionView<Ref>>, at: map<Ref, nat>, index: map<nat, uint32>, i: nat, text: bytes,
    x: nat, r: nat)
    requires Loaded(parts, built, at, index, i, text) && x < |parts[i].content| && r < 8
    requires Kinds(parts[i].content[x], parts[i].stubs) == Ok(CallOp(parts[i].content[x].id, Plainly(Opcodes.JmpR64(r))))
    requires Next(parts, built, i, x, at) < TWO_32
    ensures CallRegAt(text, 0, Addr(parts, i, x, 0, at), r, Next(parts, built, i, x, at))
  {
    hide *;
    JumpShape(r);
    var jump := Opcodes.JmpR64(r);
    LoadedIs(parts, built, at, index, i, text);
    CallParts(parts, built, i, x, Plainly(jump));
    PlainPart(parts, built, at, index, i, text, x, 4, jump);
    var f := CallImplemented(parts, built, at, index, i, text, x, Plainly(jump), 2);
    var addr := Addr(parts, i, x, 0, at);
    CodeJoin(text, 0, addr, Opcodes.LeaR11Rip()[..3] + f + PushCode(CallStore()), jump);
    LeaStart();
    CallIsAt(text, 0, addr, f, jump, Next(parts, built, i, x, at));
    CallRegIsAt(text, 0, addr, f, r, Next(parts, built, i, x, at));
  }

  lemma {:induction false} LeaStart()
    ensures |Opcodes.LeaR11Rip()| == 7 && |Opcodes.LeaR11Rip()[..3]| == 3
  {
  }

  lemma {:induction false} CallIsAt(text: bytes, base: nat, addr: nat, f: bytes, jump: bytes, next: uint32)
    requires |f| == 4 && |PushCode(CallStore())| == 8 && |Opcodes.LeaR11Rip()| == 7
    requires CodeAt(text, base, addr, Opcodes.LeaR11Rip()[..3] + f + PushCode(CallStore()) + jump)
    requires next == addr + 15 + |jump| && Signed32(f) == 8 + |jump|
    ensures IsCall(text, base, addr, f, jump, next)
  {
    hide CodeAt, Signed32, PushCode;
  }

  lemma {:induction false} CallRegIsAt(text: bytes, base: nat, addr: nat, f: bytes, r: nat, next: uint32)
    requires r < 8 && IsCall(text, base, addr, f, Opcodes.JmpR64(r), next)
    ensures CallRegAt(text, base, addr, r, next)
  {
    hide IsCall;
  }

  lemma {:induction false} ForwardIn(to: Ref, ids: set<Ref>)
    requires to in ids && !to.Made?
    ensures Forward(Some(to), ids) == Some(Made(to, 0)) && TWO_32 == 0x1_0000_0000
  {
  }

  lemma {:induction false} CallToImplemented(
    parts: seq<Part>, built: seq<SectionView<Ref>>, at: map<Ref, nat>, index: map<nat, uint32>, i: nat, text: bytes,
    x: nat, jmp: Insn<Ref>, to: Ref, target: uint32)
    requires Loaded(parts, built, at, index, i, text) && x < |parts[i].content|
    requires Kinds(parts[i].content[x], parts[i].stubs) == Ok(CallOp(parts[i].content[x].id, jmp))
    requires WideBranch(jmp, [0xe9], to) && to in AllIds(parts) && !to.Made?
    requires Made(to, 0) in at ==> at[Made(to, 0)] == target
    requires Next(parts, built, i, x, at) < TWO_32
    requires -0x8000_0000 <= target - Next(parts, built, i, x, at) < 0x8000_0000
    ensures CallToAt(text, 0, Addr(parts, i, x, 0, at), target, Next(parts, built, i, x, at))
  {
    hide *;
    ForwardIn(to, AllIds(parts));
    var head: bytes := [0xe9];
    LoadedIs(parts, built, at, index, i, text);
    CallParts(parts, built, i, x, jmp);
    var g := BranchPart(parts, built, at, index, i, text, x, 4, jmp, head, to);
    var f := CallImplemented(parts, built, at, index, i, text, x, jmp, 5);
    var addr, next := Addr(parts, i, x, 0, at), Next(parts, built, i, x, at);
    CodeJoin(text, 0, addr, Opcodes.LeaR11Rip()[..3] + f + PushCode(CallStore()), head + g);
    LeaStart();
    CallIsAt(text, 0, addr, f, head + g, next);
    CallToIsAt(text, 0, addr, f, g, target, next);
  }

  lemma {:induction false} CallToIsAt(text: bytes, base: nat, addr: nat, f: bytes, g: bytes, target: uint32, next: uint32)
    requires |g| == 4 && IsCall(text, base, addr, f, [0xe9] + g, next) && next + Signed32(g) == target
    ensures CallToAt(text, base, addr, target, next)
  {
    hide IsCall, Signed32;
  }

  lemma {:induction false} RelativeIsAt(
    text: bytes, base: nat, addr: nat, opcode: bytes, g: bytes, target: uint32, next: uint32)
    requires |g| == 4 && CodeAt(text, base, addr, opcode + g) && next == addr + |opcode| + 4
    requires Signed32(g) == target - next
    ensures RelativeAt(text, base, addr, opcode, target, next)
  {
    hide CodeAt, Signed32;
    assert PlainAt(text, base, addr, opcode + g, next);
  }

  /** A branch that is copied, after widening. */
  lemma {:induction false} JumpImplemented(
    parts: seq<Part>, built: seq<SectionView<Ref>>, at: map<Ref, nat>, index: map<nat, uint32>, i: nat, text: bytes,
    x: nat, insn: Insn<Ref>, head: bytes, to: Ref, target: uint32)
    requires Loaded(parts, built, at, index, i, text) && x < |parts[i].content|
    requires Kinds(parts[i].content[x], parts[i].stubs) == Ok([Inst(insn)])
    requires WideBranch(insn, head, to) && to in AllIds(parts) && !to.Made?
    requires Made(to, 0) in at ==> at[Made(to, 0)] == target
    requires Next(parts, built, i, x, at) < TWO_32
    requires -0x8000_0000 <= target - Next(parts, built, i, x, at) < 0x8000_0000
    ensures RelativeAt(text, 0, Addr(parts, i, x, 0, at), head, target, Next(parts, built, i, x, at))
  {
    hide *;
    ForwardIn(to, AllIds(parts));
    var kinds := [Inst(insn)];
    assert kinds[0] == Inst(insn);
    LoadedIs(parts, built, at, index, i, text);
    ExpandsOf(parts, built, i, x, kinds);
    var g := BranchPart(parts, built, at, index, i, text, x, 0, insn, head, to);
    AfterInner(parts, built, i, x, 0, at);
    RelativeIsAt(text, 0, Addr(parts, i, x, 0, at), head, g, target, Next(parts, built, i, x, at));
  }

  /** A rebased immediate that became a rip-relative lea. */
  lemma {:induction false} AddressImplemented(
    parts: seq<Part>, built: seq<SectionView<Ref>>, at: map<Ref, nat>, index: map<nat, uint32>, i: nat, text: bytes,
    x: nat, r: nat, to: Ref, target: uint32)
    requires Loaded(parts, built, at, index, i, text) && x < |parts[i].content| && r < 8
    requires Kinds(parts[i].content[x], parts[i].stubs) == Ok([Inst(Relative(Opcodes.LeaR32Rip(r), 2, to))])
    requires to in AllIds(parts) && !to.Made?
    requires Made(to, 0) in at ==> at[Made(to, 0)] == target
    requires Next(parts, built, i, x, at) < TWO_32
    requires -0x8000_0000 <= target - Next(parts, built, i, x, at) < 0x8000_0000
    ensures |Opcodes.LeaR32Rip(r)| == 6
    ensures RelativeAt(text, 0, Addr(parts, i, x, 0, at), Opcodes.LeaR32Rip(r)[..2], target,
                       Next(parts, built, i, x, at))
  {
    hide *;
    ForwardIn(to, AllIds(parts));
    CodeShapes(r, 0);
    var kinds := [Inst(Relative(Opcodes.LeaR32Rip(r), 2, to))];
    assert kinds[0] == Inst(Relative(Opcodes.LeaR32Rip(r), 2, to));
    LoadedIs(parts, built, at, index, i, text);
    ExpandsOf(parts, built, i, x, kinds);
    var g := RelativePart(parts, built, at, index, i, text, x, 0, Opcodes.LeaR32Rip(r), 2, to);
    AfterInner(parts, built, i, x, 0, at);
    RelativeIsAt(text, 0, Addr(parts, i, x, 0, at), Opcodes.LeaR32Rip(r)[..2], g, target,
                 Next(parts, built, i, x, at));
  }

  lemma {:induction false} ConstImplemented(
    parts: seq<Part>, built: seq<SectionView<Ref>>, at: map<Ref, nat>, index: map<nat, uint32>, i: nat, text: bytes,
    x: nat, insn: Insn<Ref>, head: bytes)
    requires Loaded(parts, built, at, index, i, text) && x < |parts[i].content|
    requires Kinds(parts[i].content[x], parts[i].stubs) == Ok([Inst(insn)]) && HasConst(insn, head)
    ensures insn.imm.Some?
    ensures CodeAt(text, 0, Addr(parts, i, x, 0, at), head + Le(4, insn.imm.value.value))
    ensures Next(parts, built, i, x, at) == Addr(parts, i, x, 0, at) + |head| + 4
  {
    hide *;
    var kinds := [Inst(insn)];
    assert kinds[0] == Inst(insn);
    LoadedIs(parts, built, at, index, i, text);
    HasConstIs(insn, head);
    ExpandsOf(parts, built, i, x, kinds);
    ConstPart(parts, built, at, index, i, text, x, 0, insn, head);
    AfterInner(parts, built, i, x, 0, at);
  }

  // ----- all cases -----

  lemma {:induction false} PushKinds(b: Blob<Ref>, stubs: bool, ids: set<Ref>, at: map<Ref, nat>, r: nat)
    requires b.kind.Inst? && Means(b.kind.insn, ids, at, PushReg(r))
    ensures Kinds(b, stubs) == Ok([Inst(Plainly(Opcodes.PushAx())), Inst(Plainly(Opcodes.PushAx())),
                                   Inst(Plainly(Opcodes.MovMemRspR32(r)))]) && Opcodes.MovMemRspR32(r) != []
  {
  }

  lemma {:induction false} PushConstKinds(b: Blob<Ref>, stubs: bool, ids: set<Ref>, at: map<Ref, nat>, imm: uint32)
    requires b.kind.Inst? && Means(b.kind.insn, ids, at, PushConst(imm))
    ensures Kinds(b, stubs) == Ok([Inst(Plainly(Opcodes.PushAx())), Inst(Plainly(Opcodes.PushAx())),
                                   Inst(Plainly(Opcodes.MovMemRspImm(imm)))]) && Opcodes.MovMemRspImm(imm) != []
  {
    hide Le;
  }

  lemma {:induction false} OtherKinds(b: Blob<Ref>, stubs: bool, ids: set<Ref>, at: map<Ref, nat>, op: Op32)
    requires b.kind.Inst? && Means(b.kind.insn, ids, at, op)
    ensures op.PopReg? ==> Kinds(b, stubs) == Ok(PopR32(op.r) + [])
    ensures op.Ret? ==> Kinds(b, stubs) == Ok(PopR32(R11) + [Inst(Plainly(Opcodes.JmpR64(R11)))])
    ensures op.CallReg? ==> Kinds(b, stubs) == Ok(CallOp(b.id, Plainly(Opcodes.JmpR64(op.r))))
    ensures op.IncReg? ==> Kinds(b, stubs) == Ok([Inst(Plainly(Opcodes.IncR32(op.r)))])
    ensures op.DecReg? ==> Kinds(b, stubs) == Ok([Inst(Plainly(Opcodes.DecR32(op.r)))])
    ensures op.LoadConst? ==> Kinds(b, stubs) == Ok([Inst(b.kind.insn)])
  {
    hide Le, CallOp, Plainly;
    if op.PopReg? {
      assert PopR32(op.r) + [] == PopR32(op.r);
    }
  }

  /** The jump inside an expanded call. */
  function CallJump(insn: Insn<Ref>): Insn<Ref>
  {
    Plainly(Opcodes.JmpRel32()).(iform := JmpRelZ, memdisp := insn.memdisp, brdisp := insn.brdisp)
  }

  lemma {:induction false} BranchKinds(b: Blob<Ref>, stubs: bool, ids: set<Ref>, at: map<Ref, nat>, op: Op32)
    requires b.kind.Inst? && Means(b.kind.insn, ids, at, op) && (op.CallTo? || op.Jump? || op.Branch?)
    ensures b.kind.insn.brdisp.Some?
    ensures
      var to := b.kind.insn.brdisp.value;
      to.PlaceAt? && to in ids && Made(to, 0) in at && at[Made(to, 0)] == op.target
    ensures op.CallTo? ==> Kinds(b, stubs) == Ok(CallOp(b.id, CallJump(b.kind.insn)))
    ensures op.CallTo? ==> WideBranch(CallJump(b.kind.insn), [0xe9], b.kind.insn.brdisp.value)
    ensures !op.CallTo? ==> Kinds(b, stubs) == Ok([Inst(b.kind.insn)])
    ensures op.Jump? ==> WideBranch(b.kind.insn, [0xe9], b.kind.insn.brdisp.value)
    ensures op.Branch? ==> op.cc < 16 && WideBranch(b.kind.insn, [0x0f, 0x80 + op.cc], b.kind.insn.brdisp.value)
  {
    hide CallOp;
  }

  lemma {:induction false} AddressKinds(b: Blob<Ref>, stubs: bool, ids: set<Ref>, at: map<Ref, nat>, op: Op32)
    requires b.kind.Inst? && Means(b.kind.insn, ids, at, op) && op.LoadAddress?
    ensures op.r < 8 && b.kind.insn.imm.Some? && b.kind.insn.imm.value.pointee.Some?
    ensures
      var to := b.kind.insn.imm.value.pointee.value;
      && to.PlaceAt? && to in ids && Made(to, 0) in at && at[Made(to, 0)] == op.target
      && Kinds(b, stubs) == Ok([Inst(Relative(Opcodes.LeaR32Rip(op.r), 2, to))])
  {
    hide Opcodes.LeaR32Rip;
  }

  lemma {:induction false} MeansValid(insn: Insn<Ref>, ids: set<Ref>, at: map<Ref, nat>, op: Op32)
    requires Means(insn, ids, at, op)
    ensures op.Valid()
    ensures op.LoadConst? ==> op.r < 8 && HasConst(insn, [0xb8 + op.r]) && insn.imm.Some? && insn.imm.value.value == op.imm
  {
    if op.PushMem? {
      OperandRegs(insn.buf);
    } else if op.LoadMem? || op.StoreMem? || op.LeaMem? {
      AccessRegs(insn.buf, if op.LoadMem? then 0x8b else if op.StoreMem? then 0x89 else 0x8d, op.r, op.m);
    }
    hide PushOperand, RegMem;
  }

  lemma {:induction false} CodeShapes(r: nat, imm: uint32)
    requires r < 8
    ensures Opcodes.MovR32Imm(r, imm) == [0xb8 + r] + Le(4, imm)
    ensures |Opcodes.IncR32(r)| == |Opcodes.DecR32(r)| == 2 && |Opcodes.LeaR32Rip(r)| == 6
  {
    hide Le;
  }

  lemma {:induction false} PushCase(
    parts: seq<Part>, built: seq<SectionView<Ref>>, at: map<Ref, nat>, index: map<nat, uint32>, i: nat, text: bytes,
    x: nat, op: Op32)
    requires Translates(parts, built, at, index, i, text, x, op) && (op.PushReg? || op.PushConst?)
    ensures Implements(text, 0, Addr(parts, i, x, 0, at), op, Next(parts, built, i, x, at))
  {
    var b, stubs, ids := parts[i].content[x], parts[i].stubs, AllIds(parts);
    hide Loaded, Kinds, Means, CodeAt, Addr, Next, PushCode, AllIds, Opcodes.MovMemRspR32, Opcodes.MovMemRspImm;
    MeansValid(b.kind.insn, ids, at, op);
    if op.PushReg? {
      PushKinds(b, stubs, ids, at, op.r);
      PushImplemented(parts, built, at, index, i, text, x, Opcodes.MovMemRspR32(op.r));
    } else {
      PushConstKinds(b, stubs, ids, at, op.imm);
      PushImplemented(parts, built, at, index, i, text, x, Opcodes.MovMemRspImm(op.imm));
    }
  }

  lemma {:induction false} OperandRegs(buf: bytes)
    requires PushOperand(buf).Some?
    ensures Op32.PushMem(PushOperand(buf).value).Valid()
  {
    hide FromLe, Signed32, Displacement;
  }

  lemma {:induction false} AccessRegs(buf: bytes, opcode: byte, r: nat, m: Mem32)
    requires RegMem(buf, opcode) == Some((r, m))
    ensures LowRegs(m) && r < 8
  {
    hide FromLe, Signed32, Displacement;
  }

  /** The bit changes on the ModRM byte turn the push into a load of its operand into r11. */
  lemma {:induction false} PushMemLoads(buf: bytes, m: Mem32)
    requires PushOperand(buf) == Some(m)
    ensures PushMemToMov(buf).Some? && PushMemToMov(buf).value != []
    ensures buf[1] != 0x35 ==> Encodes(PushMemToMov(buf).value, Load32(11, Widened(m)))
    ensures buf[1] == 0x35 ==> Encodes(PushMemToMov(buf).value, Load32(11, Rip(m.disp)))
  {
    RegIsSix(buf);
    hide PushOperand;
    var code := [0x44, 0x8b] + [buf[1] - 0x20 + 0x08] + buf[2..];
    assert PushMemToMov(buf) == Some(code);
    assert LoadOf(buf, code);
    hide PushMemToMov, LoadOf, Encodes, Widened;
    if buf[1] != 0x35 {
      PushLoads(buf, code, m);
    } else {
      AbsoluteMoves(buf, code, m);
    }
  }

  lemma {:induction false} PushMemKinds(b: Blob<Ref>, stubs: bool, ids: set<Ref>, at: map<Ref, nat>, m: Mem32)
    requires b.kind.Inst? && Means(b.kind.insn, ids, at, Op32.PushMem(m)) && PushMemToMov(b.kind.insn.buf).Some?
    ensures PushOperand(b.kind.insn.buf) == Some(m) && b.kind.insn.buf[1] != 0x35
    ensures Kinds(b, stubs) == Ok([Inst(Plainly(PushMemToMov(b.kind.insn.buf).value))] + PushR32(R11))
  {
    hide PushMemToMov, PushR32, Plainly, PushOperand;
  }

  lemma {:induction false} PushR32Is(r: nat)
    requires r < 16
    ensures Opcodes.MovMemRspR32(r) != [] && Opcodes.PushAx() != []
    ensures PushR32(r) == [Inst(Plainly(Opcodes.PushAx())), Inst(Plainly(Opcodes.PushAx())),
                           Inst(Plainly(Opcodes.MovMemRspR32(r)))]
  {
    hide Plainly;
  }

  lemma {:induction false} PushMemImplemented(
    parts: seq<Part>, built: seq<SectionView<Ref>>, at: map<Ref, nat>, index: map<nat, uint32>, i: nat, text: bytes,
    x: nat, code: bytes)
    requires Loaded(parts, built, at, index, i, text) && x < |parts[i].content| && code != []
    requires Kinds(parts[i].content[x], parts[i].stubs) == Ok([Inst(Plainly(code))] + PushR32(11))
    ensures CodeAt(text, 0, Addr(parts, i, x, 0, at), code + PushCode(Opcodes.MovMemRspR32(11)))
    ensures Next(parts, built, i, x, at) == Addr(parts, i, x, 0, at) + |code + PushCode(Opcodes.MovMemRspR32(11))|
  {
    hide *;
    var push, store := Opcodes.PushAx(), Opcodes.MovMemRspR32(11);
    PushR32Is(11);
    var kinds := [Inst(Plainly(code))] + PushR32(11);
    LoadedIs(parts, built, at, index, i, text);
    PlainOf(parts, built, i, x, kinds, 0, code);
    PlainOf(parts, built, i, x, kinds, 1, push);
    PlainOf(parts, built, i, x, kinds, 2, push);
    PlainOf(parts, built, i, x, kinds, 3, store);
    PlainMore(parts, i, x, 0, code);
    PlainPart(parts, built, at, index, i, text, x, 0, code);
    PushParts(parts, built, at, index, i, text, x, 1, store);
    AfterInner(parts, built, i, x, 0, at);
    AfterInner(parts, built, i, x, 3, at);
    CodeJoin(text, 0, Addr(parts, i, x, 0, at), code, PushCode(store));
  }

  lemma {:induction false} PushMemIsAt(text: bytes, base: nat, addr: nat, code: bytes, m: Mem32, next: uint32)
    requires Op32.PushMem(m).Valid() && Encodes(code, Load32(11, Widened(m)))
    requires CodeAt(text, base, addr, code + PushCode(Opcodes.MovMemRspR32(11)))
    requires next == addr + |code + PushCode(Opcodes.MovMemRspR32(11))|
    ensures Implements(text, base, addr, Op32.PushMem(m), next)
  {
    assert R11 == 11;
    assert PlainAt(text, base, addr, code + PushCode(Opcodes.MovMemRspR32(11)), next);
    hide Encodes, CodeAt, PushCode, Widened, PlainAt;
  }

  lemma {:induction false} PushMemCase(
    parts: seq<Part>, built: seq<SectionView<Ref>>, at: map<Ref, nat>, index: map<nat, uint32>, i: nat, text: bytes,
    x: nat, op: Op32)
    requires Translates(parts, built, at, index, i, text, x, op) && op.PushMem?
    ensures Implements(text, 0, Addr(parts, i, x, 0, at), op, Next(parts, built, i, x, at))
  {
    var b := parts[i].content[x];
    hide Loaded, Means, Addr, Next, AllIds, PushOperand, PushMemToMov, Kinds, Encodes, CodeAt, PushCode, Implements,
         Opcodes.MovMemRspR32, PushR32;
    PushMemMeans(b.kind.insn, AllIds(parts), at, op.m);
    PushMemLoads(b.kind.insn.buf, op.m);
    PushMemKinds(b, parts[i].stubs, AllIds(parts), at, op.m);
    var code := PushMemToMov(b.kind.insn.buf).value;
    OperandRegs(b.kind.insn.buf);
    PushMemImplemented(parts, built, at, index, i, text, x, code);
    PushMemIsAt(text, 0, Addr(parts, i, x, 0, at), code, op.m, Next(parts, built, i, x, at));
  }

  lemma {:induction false} PushMemMeans(insn: Insn<Ref>, ids: set<Ref>, at: map<Ref, nat>, m: Mem32)
    requires Means(insn, ids, at, Op32.PushMem(m))
    ensures PushOperand(insn.buf) == Some(m)
  {
    hide PushOperand;
  }

  /** A copied instruction without references is emitted as it is. */
  lemma {:induction false} CopyBuilt(o: Blob<Ref>, ids: set<Ref>, loc: Location, at: map<Ref, nat>, insn: Insn<Ref>)
    requires o.active && o.kind == Inst(insn) && BuildBlob(ForwardBlob(o, ids), WORD, loc).Some?
    requires insn.iform.Plain? && insn.memdisp.None? && insn.brdisp.None? && insn.imm.None?
    ensures var f := BuildBlob(ForwardBlob(o, ids), WORD, loc).value.0;
      f.kind.Inst? && f.kind.insn.buf == insn.buf && InsnBytes(f.kind.insn, f.loc, at) == Some(insn.buf)
  {
  }

  lemma {:induction false} CopyImplemented(
    parts: seq<Part>, built: seq<SectionView<Ref>>, at: map<Ref, nat>, index: map<nat, uint32>, i: nat, text: bytes,
    x: nat, insn: Insn<Ref>)
    requires Loaded(parts, built, at, index, i, text) && x < |parts[i].content| && insn.buf != []
    requires Kinds(parts[i].content[x], parts[i].stubs) == Ok([Inst(insn)])
    requires insn.iform.Plain? && insn.memdisp.None? && insn.brdisp.None? && insn.imm.None?
    ensures CodeAt(text, 0, Addr(parts, i, x, 0, at), insn.buf)
    ensures Next(parts, built, i, x, at) == Addr(parts, i, x, 0, at) + |insn.buf|
  {
    hide *;
    var kinds := [Inst(insn)];
    assert kinds[0] == Inst(insn);
    LoadedIs(parts, built, at, index, i, text);
    ExpandsOf(parts, built, i, x, kinds);
    var f := FinalInsn(parts, built, at, index, i, text, x, 0);
    NextAddr(parts, built, at, i, x, 0);
    CopyBuilt(Made64(parts, i, x)[0], AllIds(parts), f.loc, at, insn);
  }

  lemma {:induction false} AccessMeans(b: Blob<Ref>, stubs: bool, ids: set<Ref>, at: map<Ref, nat>, op: Op32)
    returns (opcode: byte)
    requires b.kind.Inst? && Means(b.kind.insn, ids, at, op) && (op.LoadMem? || op.StoreMem? || op.LeaMem?)
    ensures opcode == if op.LoadMem? then 0x8b else if op.StoreMem? then 0x89 else 0x8d
    ensures Accesses(b.kind.insn, opcode, op.r, op.m) && Kinds(b, stubs) == Ok([Inst(b.kind.insn)])
  {
    opcode := if op.LoadMem? then 0x8b else if op.StoreMem? then 0x89 else 0x8d;
    hide RegMem, Absolute;
  }

  lemma {:induction false} AccessIs(insn: Insn<Ref>, opcode: byte, op: Op32)
    requires op.LoadMem? || op.StoreMem? || op.LeaMem?
    requires opcode == if op.LoadMem? then 0x8b else if op.StoreMem? then 0x89 else 0x8d
    requires Accesses(insn, opcode, op.r, op.m)
    ensures insn.iform.Plain? && insn.memdisp.None? && insn.brdisp.None? && insn.imm.None?
    ensures op.Valid() && Encodes(insn.buf, Copied64(op)) && insn.buf != []
  {
    AccessRegs(insn.buf, opcode, op.r, op.m);
    CopyDecodes(insn.buf, opcode, op.r, op.m);
    RegMemIs(insn.buf, opcode);
    hide Encodes, RegMem, Absolute;
  }

  lemma {:induction false} CopyIsAt(text: bytes, base: nat, addr: nat, code: bytes, op: Op32, next: uint32)
    requires op.Valid() && (op.LoadMem? || op.StoreMem? || op.LeaMem?) && Encodes(code, Copied64(op))
    requires CodeAt(text, base, addr, code) && next == addr + |code|
    ensures Implements(text, base, addr, op, next)
  {
    hide Encodes, CodeAt, Widened;
    assert PlainAt(text, base, addr, code, next);
    assert EncodedAt(text, base, addr, Copied64(op), next);
  }

  lemma {:induction false} CopyCase(
    parts: seq<Part>, built: seq<SectionView<Ref>>, at: map<Ref, nat>, index: map<nat, uint32>, i: nat, text: bytes,
    x: nat, op: Op32)
    requires Translates(parts, built, at, index, i, text, x, op) && (op.LoadMem? || op.StoreMem? || op.LeaMem?)
    ensures Implements(text, 0, Addr(parts, i, x, 0, at), op, Next(parts, built, i, x, at))
  {
    var b := parts[i].content[x];
    hide Loaded, Means, Addr, Next, AllIds, Kinds, Encodes, CodeAt, Implements, Accesses;
    var opcode := AccessMeans(b, parts[i].stubs, AllIds(parts), at, op);
    AccessIs(b.kind.insn, opcode, op);
    CopyImplemented(parts, built, at, index, i, text, x, b.kind.insn);
    CopyIsAt(text, 0, Addr(parts, i, x, 0, at), b.kind.insn.buf, op, Next(parts, built, i, x, at));
  }

  lemma {:induction false} PopCase(
    parts: seq<Part>, built: seq<SectionView<Ref>>, at: map<Ref, nat>, index: map<nat, uint32>, i: nat, text: bytes,
    x: nat, op: Op32)
    requires Translates(parts, built, at, index, i, text, x, op) && (op.PopReg? || op.Ret? || op.CallReg?)
    ensures Implements(text, 0, Addr(parts, i, x, 0, at), op, Next(parts, built, i, x, at))
  {
    var b, stubs, ids := parts[i].content[x], parts[i].stubs, AllIds(parts);
    hide Loaded, Kinds, Means, CodeAt, Addr, Next, CallRegAt, PopCode, AllIds, CallOp, Opcodes.JmpR64;
    MeansValid(b.kind.insn, ids, at, op);
    OtherKinds(b, stubs, ids, at, op);
    if op.PopReg? {
      PopImplemented(parts, built, at, index, i, text, x, op.r, []);
      AfterInner(parts, built, i, x, 1, at);
    } else if op.Ret? {
      RetImplemented(parts, built, at, index, i, text, x);
    } else {
      CallRegImplemented(parts, built, at, index, i, text, x, op.r);
    }
  }

  lemma {:induction false} BranchFacts(
    parts: seq<Part>, built: seq<SectionView<Ref>>, at: map<Ref, nat>, index: map<nat, uint32>, i: nat, text: bytes,
    x: nat, op: Op32)
    requires Translates(parts, built, at, index, i, text, x, op) && (op.CallTo? || op.Jump? || op.Branch?)
    ensures Loaded(parts, built, at, index, i, text) && i < |parts| == |built| && x < |parts[i].content|
    ensures parts[i].content[x].kind.Inst? && Means(parts[i].content[x].kind.insn, AllIds(parts), at, op) && op.Valid()
    ensures Next(parts, built, i, x, at) < TWO_32 && Next(parts, built, i, x, at) < 0x1_0000_0000
    ensures -0x8000_0000 <= op.target - Next(parts, built, i, x, at) < 0x8000_0000
  {
    TranslatesIs(parts, built, at, index, i, text, x, op);
    hide Loaded, Means, Addr, Next;
    MeansValid(parts[i].content[x].kind.insn, AllIds(parts), at, op);
  }

  lemma {:induction false} BranchImplements(text: bytes, base: nat, addr: nat, op: Op32, next: uint32)
    requires op.Valid() && (op.CallTo? || op.Jump? || op.Branch?)
    requires op.CallTo? ==> CallToAt(text, base, addr, op.target, next)
    requires op.Jump? ==> RelativeAt(text, base, addr, [0xe9], op.target, next)
    requires op.Branch? ==> RelativeAt(text, base, addr, [0x0f, 0x80 + op.cc], op.target, next)
    ensures Implements(text, base, addr, op, next)
  {
    hide CallToAt, RelativeAt;
  }

  /** What a branch of the input turns into and leads to. */
  lemma {:induction false} BranchForm(
    parts: seq<Part>, built: seq<SectionView<Ref>>, at: map<Ref, nat>, index: map<nat, uint32>, i: nat, text: bytes,
    x: nat, op: Op32) returns (insn: Insn<Ref>, head: bytes, to: Ref)
    requires Translates(parts, built, at, index, i, text, x, op) && (op.CallTo? || op.Jump? || op.Branch?)
    ensures i < |parts| == |built| && x < |parts[i].content|
    ensures to in AllIds(parts) && !to.Made? && (Made(to, 0) in at ==> at[Made(to, 0)] == op.target)
    ensures WideBranch(insn, head, to) && 1 <= |head| <= 2
    ensures op.CallTo? ==> Kinds(parts[i].content[x], parts[i].stubs) == Ok(CallOp(parts[i].content[x].id, insn))
    ensures !op.CallTo? ==> Kinds(parts[i].content[x], parts[i].stubs) == Ok([Inst(insn)])
    ensures op.CallTo? || op.Jump? ==> head == [0xe9]
    ensures op.Branch? ==> op.cc < 16 && head == [0x0f, 0x80 + op.cc]
  {
    TranslatesIs(parts, built, at, index, i, text, x, op);
    BranchMeans(parts, built, at, index, i, text, x, op);
    var b := parts[i].content[x];
    BranchKinds(b, parts[i].stubs, AllIds(parts), at, op);
    hide *;
    to := b.kind.insn.brdisp.value;
    insn := if op.CallTo? then CallJump(b.kind.insn) else b.kind.insn;
    head := if op.Branch? then [0x0f, 0x80 + op.cc] else [0xe9];
  }

  lemma {:induction false} BranchMeans(
    parts: seq<Part>, built: seq<SectionView<Ref>>, at: map<Ref, nat>, index: map<nat, uint32>, i: nat, text: bytes,
    x: nat, op: Op32)
    requires Translates(parts, built, at, index, i, text, x, op) && i < |parts| && x < |parts[i].content|
    ensures parts[i].content[x].kind.Inst? && Means(parts[i].content[x].kind.insn, AllIds(parts), at, op)
  {
    hide Loaded, Means, Addr, Next;
  }

  lemma {:induction false} BranchCase(
    parts: seq<Part>, built: seq<SectionView<Ref>>, at: map<Ref, nat>, index: map<nat, uint32>, i: nat, text: bytes,
    x: nat, op: Op32)
    requires Translates(parts, built, at, index, i, text, x, op) && (op.CallTo? || op.Jump? || op.Branch?)
    ensures i < |parts| == |built| && x < |parts[i].content|
    ensures Implements(text, 0, Addr(parts, i, x, 0, at), op, Next(parts, built, i, x, at))
  {
    hide *;
    BranchFacts(parts, built, at, index, i, text, x, op);
    var insn, head, to := BranchForm(parts, built, at, index, i, text, x, op);
    if op.CallTo? {
      CallToImplemented(parts, built, at, index, i, text, x, insn, to, op.target);
    } else {
      JumpImplemented(parts, built, at, index, i, text, x, insn, head, to, op.target);
    }
    BranchImplements(text, 0, Addr(parts, i, x, 0, at), op, Next(parts, built, i, x, at));
  }

  lemma {:induction false} ConstForm(
    parts: seq<Part>, built: seq<SectionView<Ref>>, at: map<Ref, nat>, index: map<nat, uint32>, i: nat, text: bytes,
    x: nat, op: Op32) returns (insn: Insn<Ref>)
    requires Translates(parts, built, at, index, i, text, x, op) && op.LoadConst?
    ensures i < |parts| == |built| && x < |parts[i].content| && Loaded(parts, built, at, index, i, text)
    ensures Kinds(parts[i].content[x], parts[i].stubs) == Ok([Inst(insn)]) && op.r < 8
    ensures HasConst(insn, [0xb8 + op.r]) && insn.imm.Some? && insn.imm.value.value == op.imm
    ensures Next(parts, built, i, x, at) < 0x1_0000_0000
  {
    TranslatesIs(parts, built, at, index, i, text, x, op);
    var b, stubs, ids := parts[i].content[x], parts[i].stubs, AllIds(parts);
    hide Loaded, Kinds, Means, Addr, Next, AllIds, HasConst;
    insn := b.kind.insn;
    MeansValid(insn, ids, at, op);
    OtherKinds(b, stubs, ids, at, op);
  }

  lemma {:induction false} ConstIsAt(text: bytes, base: nat, addr: nat, op: Op32, next: uint32)
    requires op.LoadConst? && op.r < 8 && CodeAt(text, base, addr, [0xb8 + op.r] + Le(4, op.imm)) && next == addr + 5
    ensures Implements(text, base, addr, op, next)
  {
    CodeShapes(op.r, op.imm);
    hide CodeAt, Le, Opcodes.MovR32Imm;
  }

  lemma {:induction false} ConstCase(
    parts: seq<Part>, built: seq<SectionView<Ref>>, at: map<Ref, nat>, index: map<nat, uint32>, i: nat, text: bytes,
    x: nat, op: Op32)
    requires Translates(parts, built, at, index, i, text, x, op) && op.LoadConst?
    ensures i < |parts| == |built| && x < |parts[i].content|
    ensures Implements(text, 0, Addr(parts, i, x, 0, at), op, Next(parts, built, i, x, at))
  {
    hide *;
    var insn := ConstForm(parts, built, at, index, i, text, x, op);
    ConstImplemented(parts, built, at, index, i, text, x, insn, [0xb8 + op.r]);
    ConstIsAt(text, 0, Addr(parts, i, x, 0, at), op, Next(parts, built, i, x, at));
  }

  lemma {:induction false} AddressCase(
    parts: seq<Part>, built: seq<SectionView<Ref>>, at: map<Ref, nat>, index: map<nat, uint32>, i: nat, text: bytes,
    x: nat, op: Op32)
    requires Translates(parts, built, at, index, i, text, x, op) && op.LoadAddress?
    ensures Implements(text, 0, Addr(parts, i, x, 0, at), op, Next(parts, built, i, x, at))
  {
    var b, stubs, ids := parts[i].content[x], parts[i].stubs, AllIds(parts);
    hide Loaded, Kinds, Means, CodeAt, Addr, Next, RelativeAt, AllIds, Opcodes.LeaR32Rip;
    MeansValid(b.kind.insn, ids, at, op);
    AddressKinds(b, stubs, ids, at, op);
    AddressImplemented(parts, built, at, index, i, text, x, op.r, b.kind.insn.imm.value.pointee.value, op.target);
  }

  lemma {:induction false} CountCase(
    parts: seq<Part>, built: seq<SectionView<Ref>>, at: map<Ref, nat>, index: map<nat, uint32>, i: nat, text: bytes,
    x: nat, op: Op32)
    requires Translates(parts, built, at, index, i, text, x, op) && (op.IncReg? || op.DecReg?)
    ensures Implements(text, 0, Addr(parts, i, x, 0, at), op, Next(parts, built, i, x, at))
  {
    var b, stubs, ids := parts[i].content[x], parts[i].stubs, AllIds(parts);
    hide Loaded, Kinds, Means, CodeAt, Addr, Next, AllIds, Opcodes.IncR32, Opcodes.DecR32;
    MeansValid(b.kind.insn, ids, at, op);
    CodeShapes(op.r, 0);
    OtherKinds(b, stubs, ids, at, op);
    OneImplemented(parts, built, at, index, i, text, x,
                   if op.IncReg? then Opcodes.IncR32(op.r) else Opcodes.DecR32(op.r));
  }

  /**
   The bytes emitted for an i386 instruction, after expansion, linking, layout and patching, stand at its new address
   and implement it: for every form listed, whatever lies between a branch and its target.
   */
  lemma {:induction false} EmittedImplements(
    parts: seq<Part>, built: seq<SectionView<Ref>>, at: map<Ref, nat>, index: map<nat, uint32>, i: nat, text: bytes,
    x: nat, op: Op32)
    requires Translates(parts, built, at, index, i, text, x, op)
    ensures i < |built| && x < |parts[i].content|
    ensures Implements(text, 0, Addr(parts, i, x, 0, at), op, Next(parts, built, i, x, at))
  {
    hide *;
    TranslatesIs(parts, built, at, index, i, text, x, op);
    if op.PushReg? || op.PushConst? {
      PushCase(parts, built, at, index, i, text, x, op);
    } else if op.PopReg? || op.Ret? || op.CallReg? {
      PopCase(parts, built, at, index, i, text, x, op);
    } else if op.PushMem? {
      PushMemCase(parts, built, at, index, i, text, x, op);
    } else if op.LoadMem? || op.StoreMem? || op.LeaMem? {
      CopyCase(parts, built, at, index, i, text, x, op);
    } else if op.CallTo? || op.Jump? || op.Branch? {
      BranchCase(parts, built, at, index, i, text, x, op);
    } else if op.LoadConst? {
      ConstCase(parts, built, at, index, i, text, x, op);
    } else if op.LoadAddress? {
      AddressCase(parts, built, at, index, i, text, x, op);
    } else {
      CountCase(parts, built, at, index, i, text, x, op);
    }
  }

  lemma {:induction false} TranslatesIs(
    parts: seq<Part>, built: seq<SectionView<Ref>>, at: map<Ref, nat>, index: map<nat, uint32>, i: nat, text: bytes,
    x: nat, op: Op32)
    requires Translates(parts, built, at, index, i, text, x, op)
    ensures i < |parts| == |built| && x < |parts[i].content|
  {
    LoadedIs(parts, built, at, index, i, text);
    hide Loaded, Means, Addr, Next;
  }

  /** Instruction `op` at `addr`, the next one at `next`, is blob `x` of the section. */
  ghost predicate Stands(
    parts: seq<Part>, built: seq<SectionView<Ref>>, at: map<Ref, nat>, index: map<nat, uint32>, i: nat, text: bytes,
    x: nat, addr: nat, op: Op32, next: nat)
  {
    && Translates(parts, built, at, index, i, text, x, op)
    && addr == Addr(parts, i, x, 0, at) && next == Next(parts, built, i, x, at)
  }

  /** A program all of whose instructions are blobs of the archive, at their new addresses. */
  ghost predicate ProgramOf(
    code: Code32, parts: seq<Part>, built: seq<SectionView<Ref>>, at: map<Ref, nat>, index: map<nat, uint32>, text: bytes)
  {
    forall addr :: addr in code ==>
      exists i: nat, x: nat :: Stands(parts, built, at, index, i, text, x, addr, code[addr].0, code[addr].1)
  }

  /**
   The emitted program simulates the original: every run of the i386 instructions of an archive, in whatever sections,
   with code addresses those of the new layout, is matched by a run of the processor on the memory `text`.
   */
  lemma {:induction false} EmittedProgramSimulates(
    code: Code32, parts: seq<Part>, built: seq<SectionView<Ref>>, at: map<Ref, nat>, index: map<nat, uint32>, text: bytes,
    n: nat, s: Cpu32, t: Cpu64) returns (m: nat)
    requires ProgramOf(code, parts, built, at, index, text)
    requires Rel(s, t) && Run32(code, n, s).Some? && SafeRun(code, n, s)
    ensures n <= m && Run64(text, 0, m, t).Some?
    ensures Rel(Run32(code, n, s).value, Run64(text, 0, m, t).value)
  {
    hide *;
    ProgramTranslated(code, parts, built, at, index, text);
    m := RunSimulated(code, text, 0, n, s, t);
  }

  lemma {:induction false} ProgramTranslated(
    code: Code32, parts: seq<Part>, built: seq<SectionView<Ref>>, at: map<Ref, nat>, index: map<nat, uint32>, text: bytes)
    requires ProgramOf(code, parts, built, at, index, text)
    ensures Translated(code, text, 0)
  {
    hide Translates, Implements, Addr, Next;
    forall addr | addr in code ensures Implements(text, 0, addr, code[addr].0, code[addr].1) {
      ProgramAt(code, parts, built, at, index, text, addr);
    }
  }

  lemma {:induction false} ProgramAt(
    code: Code32, parts: seq<Part>, built: seq<SectionView<Ref>>, at: map<Ref, nat>, index: map<nat, uint32>, text: bytes,
    addr: uint32)
    requires ProgramOf(code, parts, built, at, index, text) && addr in code
    ensures Implements(text, 0, addr, code[addr].0, code[addr].1)
  {
    hide Stands, Implements;
    var i: nat, x: nat :| Stands(parts, built, at, index, i, text, x, addr, code[addr].0, code[addr].1);
    StandsImplements(parts, built, at, index, i, text, x, addr, code[addr].0, code[addr].1);
  }

  lemma {:induction false} StandsImplements(
    parts: seq<Part>, built: seq<SectionView<Ref>>, at: map<Ref, nat>, index: map<nat, uint32>, i: nat, text: bytes,
    x: nat, addr: nat, op: Op32, next: uint32)
    requires Stands(parts, built, at, index, i, text, x, addr, op, next)
    ensures Implements(text, 0, addr, op, next)
  {
    hide Translates, Implements, Addr, Next;
    EmittedImplements(parts, built, at, index, i, text, x, op);
  }
}
