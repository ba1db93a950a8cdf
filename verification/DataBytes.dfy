/**
 The data of the archive: what the parser reads from a section of plain bytes or of non-lazy pointers
 (src/core/section_blob.cc, src/core/section.cc), and that it stands in the finished file and in the loaded memory.
 */
module DataBytes {
  import opened Wrappers
  import opened Blobs
  import opened Layout
  import opened Emit
  import opened EmitArchive
  import opened Placeholders
  import opened Translate
  import opened Link
  import opened References
  import opened Simulate
  import opened Pipeline
  import opened WholeArchive

  // ----- reading -----

  /** DataBlob::Parse: one byte of the image. */
  function ReadData(img: bytes): Location -> Option<Blob<Ref>>
  {
    (loc: Location) =>
      if loc.offset < |img| then Some(Blob(BlobAt(loc.vmaddr), true, loc, Data(img[loc.offset]))) else None
  }

  /** ZeroBlob::Parse: the image is not looked at. */
  function ReadZero(): Location -> Option<Blob<Ref>>
  {
    (loc: Location) => Some(Blob(BlobAt(loc.vmaddr), true, loc, Zero))
  }

  /** A section of plain bytes is read byte by byte, and completely, as far as the image goes. */
  lemma {:induction false} DataParsed(img: bytes, word: nat, loc: Location, size: nat)
    requires loc.offset + size <= |img|
    ensures
      var r := ParseBlobs(ReadData(img), word, loc, size);
      && r.Ok? && |r.value| == size
      && forall u :: 0 <= u < size ==>
           r.value[u] == Blob(BlobAt(loc.vmaddr + u), true, loc.Plus(u), Data(img[loc.offset + u]))
    decreases size
  {
    if size == 0 {
    } else {
      DataParsed(img, word, loc.Plus(1), size - 1);
      var r, rest := ParseBlobs(ReadData(img), word, loc, size), ParseBlobs(ReadData(img), word, loc.Plus(1), size - 1);
      assert loc.Plus(0) == loc;
      forall u | 0 <= u < size
        ensures r.value[u] == Blob(BlobAt(loc.vmaddr + u), true, loc.Plus(u), Data(img[loc.offset + u]))
      {
        if u > 0 {
          assert r.value[u] == rest.value[u - 1];
          assert loc.Plus(1).Plus(u - 1) == loc.Plus(u);
        }
      }
    }
  }

  /** A zero-fill section becomes as many zero blobs as it has bytes. */
  lemma {:induction false} ZeroParsed(word: nat, loc: Location, size: nat)
    ensures
      var r := ParseBlobs(ReadZero(), word, loc, size);
      && r.Ok? && |r.value| == size
      && forall u :: 0 <= u < size ==> r.value[u] == Blob(BlobAt(loc.vmaddr + u), true, loc.Plus(u), Zero)
    decreases size
  {
    if size == 0 {
    } else {
      ZeroParsed(word, loc.Plus(1), size - 1);
      var r, rest := ParseBlobs(ReadZero(), word, loc, size), ParseBlobs(ReadZero(), word, loc.Plus(1), size - 1);
      assert loc.Plus(0) == loc;
      forall u | 0 <= u < size ensures r.value[u] == Blob(BlobAt(loc.vmaddr + u), true, loc.Plus(u), Zero) {
        if u > 0 {
          assert r.value[u] == rest.value[u - 1];
          assert loc.Plus(1).Plus(u - 1) == loc.Plus(u);
        }
      }
    }
  }

  // ----- what is written for data -----

  /** The bytes a blob without references stands for, as the program that reads them sees them. */
  function Meaning(kind: Kind<Ref>): bytes
  {
    match kind
    case Data(v) => [v]
    case NonLazyPointer => [0, 0, 0, 0, 0, 0, 0, 0]
    case _ => []
  }

  predicate Raw(kind: Kind<Ref>)
  {
    kind.Data? || kind.NonLazyPointer?
  }

  lemma {:induction false} ZeroWord()
    ensures Le(8, 0) == [0, 0, 0, 0, 0, 0, 0, 0]
  {
    assert Le(0, 0) == [];
    assert Le(1, 0) == [0];
    assert Le(2, 0) == [0, 0];
    assert Le(3, 0) == [0, 0, 0];
    assert Le(4, 0) == [0, 0, 0, 0];
    assert Le(5, 0) == [0, 0, 0, 0, 0];
    assert Le(6, 0) == [0, 0, 0, 0, 0, 0];
    assert Le(7, 0) == [0, 0, 0, 0, 0, 0, 0];
  }

  lemma {:induction false} RawBytes(b: Blob<Ref>, at: map<Ref, nat>, index: map<nat, uint32>)
    requires Raw(b.kind)
    ensures BlobBytes(b, WORD, at, index) == Some(Meaning(b.kind)) && Meaning(b.kind) != [] && b.Start() == b.loc
  {
    ZeroWord();
    hide Le;
  }

  lemma {:induction false} RawExpands(b: Blob<Ref>, stubs: bool, ids: set<Ref>, loc: Location)
    requires Raw(b.kind)
    ensures Expand(b, stubs).Ok? && |Expand(b, stubs).value| == 1
    ensures ForwardBlob(Expand(b, stubs).value[0], ids).kind == b.kind
    ensures forall o :: o == ForwardBlob(Expand(b, stubs).value[0], ids) && BuildBlob(o, WORD, loc).Some? ==>
      BuildBlob(o, WORD, loc).value.0.kind == b.kind
  {
  }

  lemma {:induction false} HeldAt(data: bytes, off: nat, bs: bytes)
    requires Holds(data, off, bs) && bs != []
    ensures off + |bs| <= |data| && data[off..off + |bs|] == bs
  {
  }

  lemma {:induction false} InSection(content: Content, r: nat)
    requires r < |content|
    ensures content[r] in content
  {
  }

  /**
   Every byte of data and every non-lazy pointer of the input stands in the finished file, and in the memory it is
   loaded into at the new address of its blob.
   */
  lemma {:induction false} DataStands(
    src: seq<Source>, ps: seq<nat>, gs: seq<SegmentView<Ref>>, loc: Location, parts: seq<Part>,
    built: seq<SegmentView<Ref>>, header: bytes, cs: seq<Command<Ref>>, index: map<nat, uint32>, img: bytes,
    i: nat, u: nat) returns (f: Blob<Ref>)
    requires Laid(src, ps, gs, loc, parts, built) && WrittenOut(header, cs, built, loc, index, img)
    requires i < |src| && u < |src[i].content| && Raw(src[i].content[u].kind)
    ensures i < |Sections(built)| && f in Sections(built)[i].content && f.id == Made(src[i].content[u].id, 0)
    ensures f.id in AtOf(Sections(built)) && AtOf(Sections(built))[f.id] == f.loc.vmaddr
    ensures
      var bs := Meaning(src[i].content[u].kind);
      && f.loc.offset + |bs| <= |img| && img[f.loc.offset..f.loc.offset + |bs|] == bs
      && CodeAt(MemoryOf(built, img), 0, f.loc.vmaddr, bs)
  {
    hide *;
    var ss, at := Sections(built), AtOf(Sections(built));
    LaidRead(src, ps, gs, loc, parts, built, i);
    LaidDescribes(src, ps, gs, loc, parts, built);
    var x := PlacedHas(src, ps, parts, i, u);
    var b := parts[i].content[x];
    SpotExpands(parts, ss, i, x);
    Made64Is(parts, i, x);
    FinalIs(parts, ss, at, i, x, 0);
    Spot(parts, ss, at, i, x, 0);
    f := Final(parts, ss, i, x, 0);
    RawExpands(b, parts[i].stubs, AllIds(parts), f.Start());
    RawBytes(f, at, index);
    var r := SpotOf(parts, i, x, 0);
    InSection(ss[i].content, r);
    BlobInFile(src, ps, gs, loc, parts, built, header, cs, index, img, i, r);
    HeldAt(img, f.loc.offset, Meaning(f.kind));
    FileIsLoaded(src, ps, gs, loc, parts, built, header, cs, index, img, i);
    LoadedMapped(parts, ss, at, index, i, MemoryOf(built, img));
    MappedAt(MemoryOf(built, img), ss[i].content, at, index, r);
  }

  lemma {:induction false} MappedAt(
    text: bytes, content: Content, at: map<Ref, nat>, index: map<nat, uint32>, r: nat)
    requires Mapped(text, content, at, index) && r < |content| && content[r].active
    ensures
      var bs := BlobBytes(content[r], WORD, at, index);
      bs.Some? && (bs.value != [] ==> CodeAt(text, 0, content[r].Start().vmaddr, bs.value))
  {
    hide BlobBytes, CodeAt, Blob.Start;
  }

  /**
   End to end: each byte of an input section of plain data, wherever that section and its bytes end up, is the byte at
   the place its blob has in the output.
   */
  lemma {:induction false} ByteKept(
    src: seq<Source>, ps: seq<nat>, gs: seq<SegmentView<Ref>>, loc: Location, parts: seq<Part>,
    built: seq<SegmentView<Ref>>, header: bytes, cs: seq<Command<Ref>>, index: map<nat, uint32>, img: bytes,
    i: nat, old32: bytes, from: Location, size: nat, u: nat) returns (f: Blob<Ref>)
    requires Laid(src, ps, gs, loc, parts, built) && WrittenOut(header, cs, built, loc, index, img)
    requires i < |src| && from.offset + size <= |old32| && u < size
    requires ParseBlobs(ReadData(old32), 4, from, size) == Ok(src[i].content)
    ensures i < |Sections(built)| && f in Sections(built)[i].content && f.id == Made(BlobAt(from.vmaddr + u), 0)
    ensures f.loc.offset < |img| && img[f.loc.offset] == old32[from.offset + u]
    ensures f.loc.vmaddr < |MemoryOf(built, img)| && MemoryOf(built, img)[f.loc.vmaddr] == old32[from.offset + u]
  {
    hide *;
    DataParsed(old32, 4, from, size);
    var b := src[i].content[u];
    RawData(b, old32[from.offset + u]);
    f := DataStands(src, ps, gs, loc, parts, built, header, cs, index, img, i, u);
    OneByte(img, f.loc.offset, old32[from.offset + u]);
    OneByteAt(MemoryOf(built, img), f.loc.vmaddr, old32[from.offset + u]);
  }

  lemma {:induction false} RawData(b: Blob<Ref>, v: byte)
    requires b.kind == Data(v)
    ensures Raw(b.kind) && Meaning(b.kind) == [v]
  {
  }

  lemma {:induction false} OneByte(data: bytes, off: nat, v: byte)
    requires off + 1 <= |data| && data[off..off + 1] == [v]
    ensures data[off] == v
  {
    assert data[off] == data[off..off + 1][0];
  }

  lemma {:induction false} OneByteAt(text: bytes, addr: nat, v: byte)
    requires CodeAt(text, 0, addr, [v])
    ensures addr < |text| && text[addr] == v
  {
    assert text[addr] == text[addr - 0..addr - 0 + 1][0];
  }
}
