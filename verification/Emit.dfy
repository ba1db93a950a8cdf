/**
 Writing a built section into the image: Section::Emit, Instruction::Emit, Immediate::Emit (src/core/section.cc,
 src/core/instruction.cc, src/core/section_blob.cc) and StubHelperBlob::Emit (src/core/stub_helper.cc).
 `at` gives the vmaddr of every blob a pointer can lead to, `index` the lazy binding index of every bind node.
 */
module Emit {
  import opened Wrappers
  import Arith
  import opened Images
  import opened Blobs
  import opened Layout

  // ----- little-endian fields -----

  function Le(width: nat, v: int): (s: bytes)
    ensures |s| == width
  {
    if width == 0 then [] else [v % 256] + Le(width - 1, v / 256)
  }

  function FromLe(s: bytes): nat
  {
    if s == [] then 0 else s[0] + 256 * FromLe(s[1..])
  }

  function Pow256(width: nat): (p: nat)
    ensures p >= 1
  {
    if width == 0 then 1 else 256 * Pow256(width - 1)
  }

  lemma {:induction false} FieldStep(v: int, p: nat, q: int, r: nat)
    requires p > 0 && v / 256 == q * p + r && r < p
    ensures v % (256 * p) == v % 256 + 256 * r
  {
    assert v == q * (256 * p) + (v % 256 + 256 * r);
    Arith.DivModUnique(v, 256 * p, q, v % 256 + 256 * r);
  }

  lemma {:induction false} LeStep(width: nat, v: int)
    requires width > 0
    ensures FromLe(Le(width, v)) == v % 256 + 256 * FromLe(Le(width - 1, v / 256))
    ensures Pow256(width) == 256 * Pow256(width - 1)
  {
    assert Le(width, v)[1..] == Le(width - 1, v / 256);
  }

  /** A field holds its number modulo its width. */
  lemma {:induction false} FieldHolds(width: nat, v: int)
    ensures FromLe(Le(width, v)) == v % Pow256(width)
  {
    if width == 0 {
      assert v % 1 == 0;
    } else {
      LeStep(width, v);
      FieldHolds(width - 1, v / 256);
      hide FromLe, Le, Pow256;
      var p := Pow256(width - 1);
      FieldStep(v, p, v / 256 / p, v / 256 % p);
    }
  }

  /** The fields of four and eight bytes. */
  lemma {:induction false} WordWidths()
    ensures Pow256(4) == TWO_32 && Pow256(8) == TWO_64
  {
    assert Pow256(2) == 256 * Pow256(1) == 0x1_0000;
    assert Pow256(4) == 256 * Pow256(3) == 256 * (256 * Pow256(2)) == 0x1_0000_0000;
    assert Pow256(6) == 256 * Pow256(5) == 256 * (256 * Pow256(4)) == 0x1_0000_0000_0000;
    assert Pow256(8) == 256 * Pow256(7) == 256 * (256 * Pow256(6));
  }

  /** The signed number a processor reads from a 32-bit field. */
  function Signed32(s: bytes): int
  {
    var n := FromLe(s) % TWO_32;
    if n < 0x8000_0000 then n else n - TWO_32
  }

  /** A displacement survives its 32-bit field exactly when it fits. */
  lemma {:induction false} Signed32Iff(d: int)
    ensures Signed32(Le(4, d)) == d <==> -0x8000_0000 <= d < 0x8000_0000
  {
    WordWidths();
    FieldHolds(4, d);
    hide FromLe, Le, Pow256;
  }

  function Patch(buf: bytes, pos: nat, d: int): (r: bytes)
    requires pos + 4 <= |buf|
    ensures |r| == |buf|
  {
    buf[..pos] + Le(4, d) + buf[pos + 4..]
  }

  // ----- one blob -----

  /** The pointee's address: following a null pointer is a crash. */
  function Deref<R(==)>(p: Option<R>, at: map<R, nat>): Option<nat>
  {
    if p.Some? && p.value in at then Some(at[p.value]) else None
  }

  function PatchMem<R(==)>(insn: Insn<R>, buf: bytes, end: nat, at: map<R, nat>): (r: Option<bytes>)
    ensures r.Some? ==> |r.value| == |buf|
  {
    if insn.memdisp.None? then Some(buf)
    else if insn.dispPos + 4 > |buf| then None
    else match Deref(insn.memdisp, at)
      case None => None
      case Some(target) => Some(Patch(buf, insn.dispPos, target - end))
  }

  predicate HasRel32(iform: Iform)
  {
    iform.CallRelZ? || iform.CallRelD? || iform.JmpRelZ? || iform.JccRelZ?
  }

  function PatchBranch<R(==)>(insn: Insn<R>, buf: bytes, end: nat, at: map<R, nat>): (r: Option<bytes>)
    ensures r.Some? ==> |r.value| == |buf|
  {
    if insn.brdisp.None? then Some(buf)
    else if !HasRel32(insn.iform) || |buf| < 4 then None
    else match Deref(insn.brdisp, at)
      case None => None
      case Some(target) => Some(Patch(buf, |buf| - 4, target - end))
  }

  function PatchImm<R(==)>(insn: Insn<R>, buf: bytes, at: map<R, nat>): (r: Option<bytes>)
    ensures r.Some? ==> |r.value| == |buf|
  {
    if insn.imm.None? then Some(buf)
    else if |buf| < 4 then None
    else
      match insn.imm.value.pointee
      case None => Some(Patch(buf, |buf| - 4, insn.imm.value.value))
      case Some(_) =>
        match Deref(insn.imm.value.pointee, at)
        case None => None
        case Some(target) => Some(Patch(buf, |buf| - 4, target))
  }

  /** Instruction::Emit: displacements are relative to the end of the instruction. */
  function InsnBytes<R(==)>(insn: Insn<R>, loc: Location, at: map<R, nat>): (r: Option<bytes>)
    ensures r.Some? ==> |r.value| == |insn.buf|
  {
    var end := loc.vmaddr + |insn.buf|;
    match PatchMem(insn, insn.buf, end, at)
    case None => None
    case Some(b1) =>
      match PatchBranch(insn, b1, end, at)
      case None => None
      case Some(b2) => PatchImm(insn, b2, at)
  }

  /** The bytes a blob writes. A zero blob takes space but writes nothing. */
  function BlobBytes<R(==)>(b: Blob<R>, word: nat, at: map<R, nat>, index: map<nat, uint32>): (r: Option<bytes>)
    ensures r.Some? && !b.kind.Zero? ==> |r.value| == b.Size(word)
    ensures r.Some? && b.kind.Zero? ==> r.value == []
  {
    match b.kind
    case Data(value) => Some([value])
    case Zero => Some([])
    case LazyPointer(pointee) =>
      (match Deref(pointee, at)
       case None => None
       case Some(target) => Some(Le(word, target)))
    case NonLazyPointer => Some(Le(word, 0))
    case Placeholder => Some([])
    case Inst(insn) => InsnBytes(insn, b.loc, at)
    case Stub(push, jmp, pushLoc, jmpLoc, bindee) =>
      if push.imm.None? || bindee !in index then None
      else
        match InsnBytes(push.(imm := Some(push.imm.value.(value := index[bindee]))), pushLoc, at)
        case None => None
        case Some(p) =>
          match InsnBytes(jmp, jmpLoc, at)
          case None => None
          case Some(j) => Some(p + j)
  }

  // ----- a whole section -----

  /** A write of no bytes does not touch the file. */
  function Write(data: bytes, off: nat, bs: bytes): bytes
  {
    if bs == [] then data else Splice(data, off, bs)
  }

  ghost predicate Holds(data: bytes, off: nat, bs: bytes)
  {
    bs != [] ==> off + |bs| <= |data| && data[off..off + |bs|] == bs
  }

  function EmitAll<R(==)>(
    content: seq<Blob<R>>, word: nat, at: map<R, nat>, index: map<nat, uint32>, data: bytes, off: nat)
    : Option<(bytes, nat)>
    decreases |content|
  {
    if content == [] then Some((data, off))
    else if !content[0].active then EmitAll(content[1..], word, at, index, data, off)
    else
      match BlobBytes(content[0], word, at, index)
      case None => None
      case Some(bs) =>
        EmitAll(content[1..], word, at, index, Write(data, off, bs), off + content[0].Size(word))
  }

  /** A section is written unless one of its active blobs follows a null pointer or has no field to patch. */
  lemma {:induction false} EmitAllIff<R>(
    content: seq<Blob<R>>, word: nat, at: map<R, nat>, index: map<nat, uint32>, data: bytes, off: nat)
    ensures EmitAll(content, word, at, index, data, off).Some? <==>
            forall j :: 0 <= j < |content| && content[j].active ==> BlobBytes(content[j], word, at, index).Some?
    decreases |content|
  {
    hide BlobBytes, Write, Blob.Size;
    if content == [] {
    } else {
      assert content == [content[0]] + content[1..];
      if !content[0].active {
        EmitAllIff(content[1..], word, at, index, data, off);
      } else if BlobBytes(content[0], word, at, index).Some? {
        var bs := BlobBytes(content[0], word, at, index).value;
        EmitAllIff(content[1..], word, at, index, Write(data, off, bs), off + content[0].Size(word));
      }
    }
  }

  /** Bytes the running section offset of Emit moves over. */
  function Emitted<R>(content: seq<Blob<R>>, word: nat): nat
  {
    if content == [] then 0 else content[0].EmittedSize(word) + Emitted(content[1..], word)
  }

  lemma {:induction false} EmittedSplit<R>(c: seq<Blob<R>>, word: nat, j: nat)
    requires j < |c|
    ensures Emitted(c[..j + 1], word) == Emitted(c[..j], word) + c[j].EmittedSize(word)
  {
    if j > 0 {
      EmittedSplit(c[1..], word, j - 1);
      assert c[..j + 1][1..] == c[1..][..j] && c[..j][1..] == c[1..][..j - 1];
    } else {
      assert c[..1][1..] == [] && c[..0] == [];
    }
  }

  /** A stub helper that was switched off but still had its two instructions built. */
  predicate Dormant<R>(b: Blob<R>)
  {
    b.kind.Stub? && !b.active
  }

  predicate StubsNonEmpty<R>(c: seq<Blob<R>>)
  {
    forall i :: 0 <= i < |c| && c[i].kind.Stub? ==> |c[i].kind.push.buf| > 0
  }

  /** Emit and Build move over the same bytes up to blob `j` exactly when no dormant stub helper precedes it. */
  lemma {:induction false} EmitMeetsBuildIff<R>(c: seq<Blob<R>>, word: nat, j: nat)
    requires j <= |c| && StubsNonEmpty(c)
    ensures Emitted(c[..j], word) <= Total(c[..j], word)
    ensures Emitted(c[..j], word) == Total(c[..j], word) <==> forall i :: 0 <= i < j ==> !Dormant(c[i])
  {
    if j > 0 {
      EmitMeetsBuildIff(c, word, j - 1);
      EmittedSplit(c, word, j - 1);
      TotalSplit(c, word, j - 1);
    } else {
      assert c[..0] == [];
    }
  }

  lemma {:induction false} EmitMeetsBuild<R>(c: seq<Blob<R>>, word: nat, j: nat)
    requires j <= |c| && forall i :: 0 <= i < |c| ==> !Dormant(c[i])
    ensures Emitted(c[..j], word) == Total(c[..j], word)
  {
    if j == 0 {
      assert c[..0] == [];
    } else {
      EmitMeetsBuild(c, word, j - 1);
      EmittedSplit(c, word, j - 1);
      TotalSplit(c, word, j - 1);
    }
  }

  lemma {:induction false} WriteKeeps(data: bytes, off: nat, bs: bytes, i: nat)
    requires i < |data| && (i < off || off + |bs| <= i)
    ensures i < |Write(data, off, bs)| && Write(data, off, bs)[i] == data[i]
  {
    if bs != [] {
      SpliceAt(data, off, bs, i);
    }
  }

  /** What a section's loop writes stays between `off` and the offset it ends at. */
  lemma {:induction false} EmitAllKeeps<R>(
    content: seq<Blob<R>>, word: nat, at: map<R, nat>, index: map<nat, uint32>, data: bytes, off: nat, i: nat)
    requires EmitAll(content, word, at, index, data, off).Some?
    requires i < |data| && (i < off || off + Emitted(content, word) <= i)
    ensures var r := EmitAll(content, word, at, index, data, off).value.0;
      i < |r| && r[i] == data[i]
    decreases |content|
  {
    hide BlobBytes, Write, Blob.Size;
    if content == [] {
    } else if !content[0].active {
      EmitAllKeeps(content[1..], word, at, index, data, off, i);
    } else {
      var bs := BlobBytes(content[0], word, at, index).value;
      WriteKeeps(data, off, bs, i);
      EmitAllKeeps(content[1..], word, at, index, Write(data, off, bs), off + content[0].Size(word), i);
    }
  }

  lemma {:induction false} EmitAllHolds<R>(
    content: seq<Blob<R>>, word: nat, at: map<R, nat>, index: map<nat, uint32>, data: bytes, off: nat,
    lo: nat, bs: bytes)
    requires EmitAll(content, word, at, index, data, off).Some?
    requires Holds(data, lo, bs) && (lo + |bs| <= off || off + Emitted(content, word) <= lo)
    ensures Holds(EmitAll(content, word, at, index, data, off).value.0, lo, bs)
  {
    var r := EmitAll(content, word, at, index, data, off).value.0;
    hide EmitAll, Emitted;
    if bs != [] {
      forall k | 0 <= k < |bs| ensures lo + k < |r| && r[lo + k] == bs[k] {
        assert data[lo + k] == data[lo..lo + |bs|][k];
        EmitAllKeeps(content, word, at, index, data, off, lo + k);
      }
      EmitAllKeeps(content, word, at, index, data, off, lo + |bs| - 1);
      assert r[lo..lo + |bs|] == bs;
    }
  }

  /** The first blob's bytes stay where they were written while the rest is emitted after them. */
  lemma {:induction false} EmitAllFirst<R>(
    content: seq<Blob<R>>, word: nat, at: map<R, nat>, index: map<nat, uint32>, data: bytes, off: nat)
    requires EmitAll(content, word, at, index, data, off).Some? && content != [] && content[0].active
    ensures BlobBytes(content[0], word, at, index).Some?
    ensures Holds(EmitAll(content, word, at, index, data, off).value.0, off,
                  BlobBytes(content[0], word, at, index).value)
  {
    hide BlobBytes;
    var bs := BlobBytes(content[0], word, at, index).value;
    if bs != [] {
      var data' := Write(data, off, bs);
      var next := off + content[0].Size(word);
      assert EmitAll(content, word, at, index, data, off) == EmitAll(content[1..], word, at, index, data', next);
      EmitAllHolds(content[1..], word, at, index, data', next, off, bs);
    }
  }

  /** Every active blob's bytes end up at Emit's running offset for it. */
  lemma {:induction false} EmitAllWrites<R>(
    content: seq<Blob<R>>, word: nat, at: map<R, nat>, index: map<nat, uint32>, data: bytes, off: nat, j: nat)
    requires EmitAll(content, word, at, index, data, off).Some?
    requires j < |content| && content[j].active
    ensures Written(content, word, at, index, EmitAll(content, word, at, index, data, off).value.0, off, j)
    decreases |content|
  {
    if j == 0 {
      assert content[..0] == [];
      EmitAllFirst(content, word, at, index, data, off);
    } else {
      EmitAllStep(content, word, at, index, data, off);
      hide *;
      var r := EmitAll(content, word, at, index, data, off).value.0;
      if !content[0].active {
        EmitAllWrites(content[1..], word, at, index, data, off, j - 1);
        WrittenCons(content, word, at, index, r, off, j);
      } else {
        var bs := BlobBytes(content[0], word, at, index).value;
        EmitAllWrites(content[1..], word, at, index, Write(data, off, bs), off + content[0].Size(word), j - 1);
        WrittenCons(content, word, at, index, r, off, j);
      }
    }
  }

  /** Blob `j` is found in `r` at its running offset, counted from `off`. */
  ghost predicate Written<R>(
    content: seq<Blob<R>>, word: nat, at: map<R, nat>, index: map<nat, uint32>, r: bytes, off: nat, j: nat)
    requires j < |content|
  {
    var b := BlobBytes(content[j], word, at, index);
    b.Some? && Holds(r, off + Emitted(content[..j], word), b.value)
  }

  lemma {:induction false} WrittenCons<R>(
    content: seq<Blob<R>>, word: nat, at: map<R, nat>, index: map<nat, uint32>, r: bytes, off: nat, j: nat)
    requires 0 < j < |content|
    requires Written(content[1..], word, at, index, r,
                     if content[0].active then off + content[0].Size(word) else off, j - 1)
    ensures Written(content, word, at, index, r, off, j)
  {
    EmittedCons(content, word, j);
    assert content[j] == content[1..][j - 1];
  }

  lemma {:induction false} EmittedCons<R>(c: seq<Blob<R>>, word: nat, j: nat)
    requires 0 < j <= |c|
    ensures Emitted(c[..j], word) ==
            (if c[0].active then c[0].Size(word) else 0) + Emitted(c[1..][..j - 1], word)
  {
    assert c[..j][1..] == c[1..][..j - 1];
  }

  lemma {:induction false} EmitAllStep<R>(
    content: seq<Blob<R>>, word: nat, at: map<R, nat>, index: map<nat, uint32>, data: bytes, off: nat)
    requires EmitAll(content, word, at, index, data, off).Some? && content != []
    ensures !content[0].active ==>
      EmitAll(content, word, at, index, data, off) == EmitAll(content[1..], word, at, index, data, off)
    ensures content[0].active ==>
      && BlobBytes(content[0], word, at, index).Some?
      && var bs := BlobBytes(content[0], word, at, index).value;
      EmitAll(content, word, at, index, data, off) ==
      EmitAll(content[1..], word, at, index, Write(data, off, bs), off + content[0].Size(word))
  {
  }

  lemma {:induction false} EmitAllEnd<R>(
    content: seq<Blob<R>>, word: nat, at: map<R, nat>, index: map<nat, uint32>, data: bytes, off: nat)
    requires EmitAll(content, word, at, index, data, off).Some?
    ensures EmitAll(content, word, at, index, data, off).value.1 == off + Emitted(content, word)
    decreases |content|
  {
    if content == [] {
    } else {
      EmitAllStep(content, word, at, index, data, off);
      if !content[0].active {
        EmitAllEnd(content[1..], word, at, index, data, off);
      } else {
        var bs := BlobBytes(content[0], word, at, index).value;
        EmitAllEnd(content[1..], word, at, index, Write(data, off, bs), off + content[0].Size(word));
      }
    }
  }

  lemma {:induction false} PlacedWhereWritten<R>(
    content: seq<Blob<R>>, word: nat, loc: Location, at: map<R, nat>, index: map<nat, uint32>, data: bytes, j: nat)
    requires PlaceAll(content, word, loc).Some?
    requires var c := PlaceAll(content, word, loc).value.0;
      && (forall i :: 0 <= i < |c| ==> !Dormant(c[i]))
      && EmitAll(c, word, at, index, data, loc.offset).Some?
      && j < |c| && c[j].active
    ensures var c := PlaceAll(content, word, loc).value.0;
      && BlobBytes(c[j], word, at, index).Some?
      && Holds(EmitAll(c, word, at, index, data, loc.offset).value.0, c[j].Start().offset,
               BlobBytes(c[j], word, at, index).value)
  {
    hide BlobBytes, Holds, EmitAll, Blob.Size;
    var c := PlaceAll(content, word, loc).value.0;
    PlacedAt(content, word, loc, j);
    EmitMeetsBuild(c, word, j);
    EmitAllWrites(c, word, at, index, data, loc.offset, j);
  }

  /**
   A built section without dormant stub helpers is written where it was built: the bytes of every active blob
   are found at the file offset that blob was given, and relocations start at `reloff`.
   */
  lemma {:induction false} SectionIsWhereBuilt<R>(
    s: SectionView<R>, word: nat, loc: Location, at: map<R, nat>, index: map<nat, uint32>, data: bytes)
    requires BuildSection(s, word, loc).Some?
    requires var s' := BuildSection(s, word, loc).value.0;
      && (forall i :: 0 <= i < |s'.content| ==> !Dormant(s'.content[i]))
      && EmitAll(s'.content, word, at, index, data, s'.offset).Some?
    ensures
      var s' := BuildSection(s, word, loc).value.0;
      var (r, end) := EmitAll(s'.content, word, at, index, data, s'.offset).value;
      && (forall j :: 0 <= j < |s'.content| && s'.content[j].active ==>
            && BlobBytes(s'.content[j], word, at, index).Some?
            && Holds(r, s'.content[j].Start().offset, BlobBytes(s'.content[j], word, at, index).value))
      && end == s'.reloff
  {
    hide BlobBytes, Holds, EmitAll, Blob.Size;
    var s' := BuildSection(s, word, loc).value.0;
    forall j | 0 <= j < |s'.content| && s'.content[j].active
      ensures BlobBytes(s'.content[j], word, at, index).Some?
      ensures Holds(EmitAll(s'.content, word, at, index, data, s'.offset).value.0, s'.content[j].Start().offset,
                    BlobBytes(s'.content[j], word, at, index).value)
    {
      PlacedWhereWritten(s.content, word, Align(loc, s.align), at, index, data, j);
    }
    EmitMeetsBuild(s'.content, word, |s'.content|);
    assert s'.content[..|s'.content|] == s'.content;
    EmitAllEnd(s'.content, word, at, index, data, s'.offset);
  }

  /** Overwriting the last four bytes of what was just written is the same as writing the patched bytes. */
  lemma {:induction false} SpliceTail(data: bytes, off: nat, buf: bytes, v: int)
    requires |buf| >= 4
    ensures Splice(Splice(data, off, buf), off + |buf| - 4, Le(4, v)) == Splice(data, off, Patch(buf, |buf| - 4, v))
  {
    hide Splice, Le;
    var a, t := buf[..|buf| - 4], buf[|buf| - 4..];
    assert buf == a + t;
    assert buf[|buf| - 4 + 4..] == [];
    assert Patch(buf, |buf| - 4, v) == a + Le(4, v) + [] == a + Le(4, v);
    hide Patch;
    SpliceOver(data, off, a, t, Le(4, v));
  }

  // ----- the emitting methods -----

  /** Patches the displacements, copies the instruction, then lets its immediate overwrite the last four bytes. */
  method EmitInstruction<R(==)>(insn: Insn<R>, loc: Location, at: map<R, nat>, img: Image, off: nat)
    returns (ok: bool)
    requires insn.buf != []
    modifies img
    ensures ok <==> InsnBytes(insn, loc, at).Some?
    ensures ok ==> img.data == Splice(old(img.data), off, InsnBytes(insn, loc, at).value)
  {
    hide Splice, Le, Patch, PatchMem, PatchBranch;
    var end := loc.vmaddr + |insn.buf|;
    var b1 := PatchMem(insn, insn.buf, end, at);
    if b1.None? {
      return false;
    }
    var b2 := PatchBranch(insn, b1.value, end, at);
    if b2.None? {
      return false;
    }
    img.Copy(off, b2.value);
    ok := EmitImmediate(insn, b2.value, at, img, off);
  }

  /** Immediate::Emit over the last four bytes of the instruction just written at `off`. */
  method EmitImmediate<R(==)>(insn: Insn<R>, buf: bytes, at: map<R, nat>, img: Image, off: nat) returns (ok: bool)
    requires |buf| == |insn.buf|
    modifies img
    ensures ok <==> PatchImm(insn, buf, at).Some?
    ensures forall before: bytes :: ok && old(img.data) == Splice(before, off, buf) ==>
      img.data == Splice(before, off, PatchImm(insn, buf, at).value)
  {
    hide Splice, Le, Patch;
    if insn.imm.None? {
      return true;
    }
    if |buf| < 4 {
      return false;
    }
    var value: int := insn.imm.value.value;
    if insn.imm.value.pointee.Some? {
      var target := Deref(insn.imm.value.pointee, at);
      if target.None? {
        return false;
      }
      value := target.value;
    }
    img.Copy(off + |buf| - 4, Le(4, value));
    forall before: bytes | old(img.data) == Splice(before, off, buf)
      ensures img.data == Splice(before, off, PatchImm(insn, buf, at).value)
    {
      SpliceTail(before, off, buf, value);
    }
    return true;
  }

  /** StubHelperBlob::Emit: the pushed immediate becomes the index of the binding. */
  method EmitStub<R(==)>(b: Blob<R>, word: nat, at: map<R, nat>, index: map<nat, uint32>, img: Image, off: nat)
    returns (ok: bool)
    requires b.kind.Stub? && b.kind.push.buf != [] && b.kind.jmp.buf != []
    modifies img
    ensures ok <==> BlobBytes(b, word, at, index).Some?
    ensures ok ==> img.data == Splice(old(img.data), off, BlobBytes(b, word, at, index).value)
  {
    hide Splice, InsnBytes;
    var push, jmp := b.kind.push, b.kind.jmp;
    if push.imm.None? || b.kind.bindee !in index {
      return false;
    }
    push := push.(imm := Some(push.imm.value.(value := index[b.kind.bindee])));
    ok := EmitInstruction(push, b.kind.pushLoc, at, img, off);
    if ok {
      ok := EmitInstruction(jmp, b.kind.jmpLoc, at, img, off + |push.buf|);
      if ok {
        SpliceConcat(old(img.data), off, InsnBytes(push, b.kind.pushLoc, at).value,
                     InsnBytes(jmp, b.kind.jmpLoc, at).value);
      }
    }
  }

  method EmitBlob<R(==)>(b: Blob<R>, word: nat, at: map<R, nat>, index: map<nat, uint32>, img: Image, off: nat)
    returns (ok: bool)
    requires word > 0
    requires b.kind.Inst? ==> b.kind.insn.buf != []
    requires b.kind.Stub? ==> b.kind.push.buf != [] && b.kind.jmp.buf != []
    modifies img
    ensures ok <==> BlobBytes(b, word, at, index).Some?
    ensures ok ==> img.data == Write(old(img.data), off, BlobBytes(b, word, at, index).value)
  {
    hide Splice, InsnBytes, Le;
    match b.kind {
      case Data(value) =>
        img.Put(off, value);
        ok := true;
      case Zero =>
        ok := true;
      case LazyPointer(pointee) =>
        var target := Deref(pointee, at);
        ok := target.Some?;
        if ok {
          img.Copy(off, Le(word, target.value));
        }
      case NonLazyPointer =>
        img.Copy(off, Le(word, 0));
        ok := true;
      case Placeholder =>
        ok := true;
      case Inst(insn) =>
        ok := EmitInstruction(insn, b.loc, at, img, off);
      case Stub(_, _, _, _, _) =>
        ok := EmitStub(b, word, at, index, img, off);
    }
  }

  /** Instructions have at least one byte. */
  predicate NonEmptyCode<R>(content: seq<Blob<R>>)
  {
    forall i :: 0 <= i < |content| ==>
      && (content[i].kind.Inst? ==> content[i].kind.insn.buf != [])
      && (content[i].kind.Stub? ==> content[i].kind.push.buf != [] && content[i].kind.jmp.buf != [])
  }

  /** The loop of Section::Emit over the active blobs; `end` is where the relocations would be written. */
  method EmitBlobs<R(==)>(
    content: seq<Blob<R>>, word: nat, at: map<R, nat>, index: map<nat, uint32>, img: Image, off: nat)
    returns (ok: bool, end: nat)
    requires word > 0 && NonEmptyCode(content)
    modifies img
    ensures ok <==> EmitAll(content, word, at, index, old(img.data), off).Some?
    ensures ok ==> EmitAll(content, word, at, index, old(img.data), off) == Some((img.data, end))
  {
    hide BlobBytes, Blob.Size;
    end := off;
    for i := 0 to |content|
      invariant EmitAll(content, word, at, index, old(img.data), off) ==
                EmitAll(content[i..], word, at, index, img.data, end)
    {
      assert content[i..][1..] == content[i + 1..];
      if content[i].active {
        var written := EmitBlob(content[i], word, at, index, img, end);
        if !written {
          return false, end;
        }
        end := end + content[i].Size(word);
      }
    }
    return true, end;
  }

  // ----- references -----

  /** Where control or an address computation ends up: end of the instruction plus its displacement field. */
  function BranchTarget<R>(insn: Insn<R>, loc: Location, bs: bytes): int
    requires |bs| == |insn.buf| >= 4
  {
    loc.vmaddr + |insn.buf| + Signed32(bs[|bs| - 4..])
  }

  function MemTarget<R>(insn: Insn<R>, loc: Location, bs: bytes): int
    requires |bs| == |insn.buf| && insn.dispPos + 4 <= |bs|
  {
    loc.vmaddr + |insn.buf| + Signed32(bs[insn.dispPos..insn.dispPos + 4])
  }

  lemma {:induction false} PatchReads(buf: bytes, pos: nat, d: int)
    requires pos + 4 <= |buf|
    ensures Patch(buf, pos, d)[pos..pos + 4] == Le(4, d)
    ensures forall i :: 0 <= i < |buf| && !(pos <= i < pos + 4) ==> Patch(buf, pos, d)[i] == buf[i]
  {
  }

  /** An emitted branch reaches its pointee exactly when the displacement fits 32 bits. */
  lemma {:induction false} BranchReachesIff<R>(insn: Insn<R>, loc: Location, at: map<R, nat>)
    requires InsnBytes(insn, loc, at).Some? && insn.brdisp.Some? && insn.imm.None?
    ensures |insn.buf| >= 4 && insn.brdisp.value in at
    ensures
      var target := at[insn.brdisp.value];
      BranchTarget(insn, loc, InsnBytes(insn, loc, at).value) == target <==>
      -0x8000_0000 <= target - (loc.vmaddr + |insn.buf|) < 0x8000_0000
  {
    var end := loc.vmaddr + |insn.buf|;
    var b1 := PatchMem(insn, insn.buf, end, at).value;
    var d := at[insn.brdisp.value] - end;
    PatchReads(b1, |b1| - 4, d);
    assert Patch(b1, |b1| - 4, d)[|b1| - 4..] == Le(4, d);
    Signed32Iff(at[insn.brdisp.value] - end);
  }

  /** Likewise for a rip-relative operand, when no branch or immediate field overlaps it. */
  lemma {:induction false} MemReachesIff<R>(insn: Insn<R>, loc: Location, at: map<R, nat>)
    requires InsnBytes(insn, loc, at).Some? && insn.memdisp.Some? && insn.brdisp.None? && insn.imm.None?
    ensures insn.dispPos + 4 <= |insn.buf| && insn.memdisp.value in at
    ensures
      var target := at[insn.memdisp.value];
      MemTarget(insn, loc, InsnBytes(insn, loc, at).value) == target <==>
      -0x8000_0000 <= target - (loc.vmaddr + |insn.buf|) < 0x8000_0000
  {
    var end := loc.vmaddr + |insn.buf|;
    PatchReads(insn.buf, insn.dispPos, at[insn.memdisp.value] - end);
    Signed32Iff(at[insn.memdisp.value] - end);
  }
}
