/**
 The passes put together: placeholders are placed, the blobs translated and linked, the segments laid out and the file
 written (src/core/archive.cc). From nothing but the input and the success of the passes, the loaded file runs as the
 i386 program did.
 */
module WholeArchive {
  import opened Wrappers
  import opened Arith
  import opened Images
  import opened Blobs
  import opened Layout
  import Builder
  import opened Emit
  import opened EmitArchive
  import opened Opcodes
  import opened Placeholders
  import opened Translate
  import opened Link
  import opened References
  import opened Machine
  import opened Decoder
  import opened Simulate
  import opened Pipeline

  // ----- the sections of all segments in order -----

  function Sections<R>(gs: seq<SegmentView<R>>): seq<SectionView<R>>
  {
    if gs == [] then [] else gs[0].sections + Sections(gs[1..])
  }

  lemma {:induction false} SectionOf<R>(gs: seq<SegmentView<R>>, i: nat) returns (k: nat, m: nat)
    requires i < |Sections(gs)|
    ensures k < |gs| && m < |gs[k].sections| && Sections(gs)[i] == gs[k].sections[m]
  {
    if i < |gs[0].sections| {
      k, m := 0, i;
    } else {
      k, m := SectionOf(gs[1..], i - |gs[0].sections|);
      k := k + 1;
    }
  }

  /** The transforming constructor of Section: new blobs, and no relocations. */
  function FillSections(ss: seq<SectionView<Ref>>, contents: seq<Content>): (r: seq<SectionView<Ref>>)
    requires |ss| == |contents|
    ensures |r| == |ss|
    ensures forall i :: 0 <= i < |ss| ==> r[i] == ss[i].(content := contents[i], nreloc := 0)
  {
    seq(|ss|, i requires 0 <= i < |ss| => ss[i].(content := contents[i], nreloc := 0))
  }

  function Filled(gs: seq<SegmentView<Ref>>, contents: seq<Content>): (r: seq<SegmentView<Ref>>)
    requires |contents| == |Sections(gs)|
    ensures |r| == |gs|
    decreases |gs|
  {
    if gs == [] then []
    else
      var n := |gs[0].sections|;
      [gs[0].(sections := FillSections(gs[0].sections, contents[..n]))] + Filled(gs[1..], contents[n..])
  }

  /** Segments as the original has them: only those mapped from the file hold sections, aligned to a page at most. */
  predicate Shaped(gs: seq<SegmentView<Ref>>)
  {
    AllAlignedToPages(gs) && forall k :: 0 <= k < |gs| && !gs[k].Regular() ==> gs[k].sections == []
  }

  lemma {:induction false} FilledStep(gs: seq<SegmentView<Ref>>, contents: seq<Content>)
    requires |contents| == |Sections(gs)| && gs != []
    ensures |gs[0].sections| <= |contents| && |contents[|gs[0].sections|..]| == |Sections(gs[1..])|
    ensures
      var n := |gs[0].sections|;
      Filled(gs, contents) ==
      [gs[0].(sections := FillSections(gs[0].sections, contents[..n]))] + Filled(gs[1..], contents[n..])
    ensures Sections(Filled(gs, contents)) ==
            FillSections(gs[0].sections, contents[..|gs[0].sections|]) +
            Sections(Filled(gs[1..], contents[|gs[0].sections|..]))
    ensures Sections(gs) == gs[0].sections + Sections(gs[1..])
  {
    var n := |gs[0].sections|;
    var first := gs[0].(sections := FillSections(gs[0].sections, contents[..n]));
    var rest := Filled(gs[1..], contents[n..]);
    assert ([first] + rest)[1..] == rest;
  }

  lemma {:induction false} NoSections()
    ensures Sections<Ref>([]) == []
  {
  }

  lemma {:induction false} FilledSections(gs: seq<SegmentView<Ref>>, contents: seq<Content>)
    requires |contents| == |Sections(gs)|
    ensures |Sections(Filled(gs, contents))| == |Sections(gs)|
    ensures forall i :: 0 <= i < |contents| ==>
      Sections(Filled(gs, contents))[i] == Sections(gs)[i].(content := contents[i], nreloc := 0)
    decreases |gs|
  {
    hide *;
    NoSections();
    if gs == [] {
    } else {
      FilledStep(gs, contents);
      FilledSections(gs[1..], contents[|gs[0].sections|..]);
    }
  }

  lemma {:induction false} FilledShaped(gs: seq<SegmentView<Ref>>, contents: seq<Content>)
    requires |contents| == |Sections(gs)| && Shaped(gs)
    ensures Shaped(Filled(gs, contents))
    decreases |gs|
  {
    if gs == [] {
    } else {
      FilledStep(gs, contents);
      hide Sections, Filled;
      var n := |gs[0].sections|;
      forall k | 0 <= k < |gs[1..]| ensures AlignedToPages(gs[1..][k]) && (!gs[1..][k].Regular() ==> gs[1..][k].sections == []) {
        assert gs[1..][k] == gs[k + 1];
      }
      FilledShaped(gs[1..], contents[n..]);
      FirstShaped(gs[0], contents[..n]);
      ShapedCons(gs[0].(sections := FillSections(gs[0].sections, contents[..n])), Filled(gs[1..], contents[n..]));
    }
  }

  lemma {:induction false} FirstShaped(g: SegmentView<Ref>, contents: seq<Content>)
    requires |contents| == |g.sections| && AlignedToPages(g) && (!g.Regular() ==> g.sections == [])
    ensures
      var g' := g.(sections := FillSections(g.sections, contents));
      AlignedToPages(g') && (!g'.Regular() ==> g'.sections == [])
  {
  }

  lemma {:induction false} ShapedCons(g: SegmentView<Ref>, gs: seq<SegmentView<Ref>>)
    requires AlignedToPages(g) && (!g.Regular() ==> g.sections == []) && Shaped(gs)
    ensures Shaped([g] + gs)
  {
    hide AlignedToPages;
  }

  // ----- what the layout pass makes of a section -----

  /** `s'` is `s` with its blobs placed one after the other from where `s'` starts. */
  ghost predicate BuiltFrom(s: SectionView<Ref>, s': SectionView<Ref>)
  {
    var placed := PlaceAll(s.content, WORD, BaseOf(s'));
    placed.Some? && placed.value.0 == s'.content && s'.size == Total(s'.content, WORD)
  }

  lemma {:induction false} SectionBuilt(s: SectionView<Ref>, loc: Location)
    requires BuildSection(s, WORD, loc).Some?
    ensures BuiltFrom(s, BuildSection(s, WORD, loc).value.0)
  {
    hide AlignUp, Total;
    var start := Align(loc, s.align);
    var s' := BuildSection(s, WORD, loc).value.0;
    assert BaseOf(s') == start;
  }

  ghost predicate AllBuiltFrom(ss: seq<SectionView<Ref>>, ts: seq<SectionView<Ref>>)
  {
    |ss| == |ts| && forall i :: 0 <= i < |ss| ==> BuiltFrom(ss[i], ts[i])
  }

  lemma {:induction false} AllBuiltAppend(
    ss: seq<SectionView<Ref>>, ts: seq<SectionView<Ref>>, more: seq<SectionView<Ref>>, built: seq<SectionView<Ref>>)
    requires AllBuiltFrom(ss, ts) && AllBuiltFrom(more, built)
    ensures AllBuiltFrom(ss + more, ts + built)
  {
    hide BuiltFrom;
  }

  lemma {:induction false} SectionsBuilt(ss: seq<SectionView<Ref>>, loc: Location)
    requires BuildSections(ss, WORD, loc).Some?
    ensures AllBuiltFrom(ss, BuildSections(ss, WORD, loc).value.0)
    decreases |ss|
  {
    hide BuildSection, BuiltFrom;
    if ss == [] {
    } else {
      var (s, next) := BuildSection(ss[0], WORD, loc).value;
      SectionBuilt(ss[0], loc);
      SectionsBuilt(ss[1..], next);
      AllBuiltAppend([ss[0]], [s], ss[1..], BuildSections(ss[1..], WORD, next).value.0);
      assert [ss[0]] + ss[1..] == ss;
    }
  }

  lemma {:induction false} SegmentBuilt(g: SegmentView<Ref>, loc: Location)
    requires BuildSegment(g, WORD, loc).Some? && (!g.Regular() ==> g.sections == [])
    ensures AllBuiltFrom(g.sections, BuildSegment(g, WORD, loc).value.0.sections)
    ensures BuildSegment(g, WORD, loc).value.0.kind == g.kind
  {
    if g.Regular() {
      SectionsBuilt(g.sections, SegmentStart(g.kind, loc).0);
    }
    hide AlignUp, AlignDown, BuildSections, BuiltFrom;
  }

  lemma {:induction false} SegmentsBuilt(gs: seq<SegmentView<Ref>>, loc: Location)
    requires BuildSegments(gs, WORD, loc).Some?
    requires forall k :: 0 <= k < |gs| && !gs[k].Regular() ==> gs[k].sections == []
    ensures
      var built := BuildSegments(gs, WORD, loc).value.0;
      && AllBuiltFrom(Sections(gs), Sections(built))
      && forall k :: 0 <= k < |gs| ==> built[k].kind == gs[k].kind && |built[k].sections| == |gs[k].sections|
    decreases |gs|
  {
    hide BuildSegment, BuiltFrom;
    if gs == [] {
    } else {
      var (g, next) := BuildSegment(gs[0], WORD, loc).value;
      SegmentBuilt(gs[0], loc);
      SegmentsBuilt(gs[1..], next);
      var rest := BuildSegments(gs[1..], WORD, next).value.0;
      AllBuiltAppend(gs[0].sections, g.sections, Sections(gs[1..]), Sections(rest));
      assert ([g] + rest)[1..] == rest;
    }
  }

  // ----- the translated archive, laid out -----

  function Contents(parts: seq<Part>): (r: seq<Content>)
    requires Translatable(parts)
    ensures |r| == |parts| && forall i :: 0 <= i < |parts| ==> r[i] == NewContent(parts, i)
  {
    seq(|parts|, i requires 0 <= i < |parts| => NewContent(parts, i))
  }

  /** Every pass up to the layout succeeded: `built` are the segments of the translation of `src`. */
  ghost predicate Laid(
    src: seq<Source>, ps: seq<nat>, gs: seq<SegmentView<Ref>>, loc: Location, parts: seq<Part>,
    built: seq<SegmentView<Ref>>)
  {
    && AllRead(src) && Placed(src, ps, parts) && Translatable(parts) && |src| <= Builder.MAX_SECT
    && Shaped(gs) && |Sections(gs)| == |src| && loc.vmaddr % PAGE_SIZE == 0
    && |Sections(gs)| == |parts|
    && BuildSegments(Filled(gs, Contents(parts)), WORD, loc).Some?
    && built == BuildSegments(Filled(gs, Contents(parts)), WORD, loc).value.0
  }

  lemma {:induction false} LaidBuilt(
    src: seq<Source>, ps: seq<nat>, gs: seq<SegmentView<Ref>>, loc: Location, parts: seq<Part>,
    built: seq<SegmentView<Ref>>)
    requires Laid(src, ps, gs, loc, parts, built)
    ensures Translatable(parts) && Distinct(parts) && |Sections(built)| == |parts| == |src| && |built| == |gs|
    ensures forall i :: 0 <= i < |parts| ==>
      var placed := PlaceAll(NewContent(parts, i), WORD, BaseOf(Sections(built)[i]));
      && placed.Some? && placed.value.0 == Sections(built)[i].content
      && Sections(built)[i].size == Total(Sections(built)[i].content, WORD)
    ensures forall k :: 0 <= k < |built| ==> (!built[k].Regular() ==> built[k].sections == [])
  {
    PlacedDistinct(src, ps, parts);
    hide Placed, AllRead, Distinct, Sections, BuildSegments, Filled, NewContent, Translatable, PlaceAll, Total, AlignedToPages;
    var full := Filled(gs, Contents(parts));
    FilledSections(gs, Contents(parts));
    FilledShaped(gs, Contents(parts));
    SegmentsBuilt(full, loc);
    forall i | 0 <= i < |parts|
      ensures
        var placed := PlaceAll(NewContent(parts, i), WORD, BaseOf(Sections(built)[i]));
        && placed.Some? && placed.value.0 == Sections(built)[i].content
        && Sections(built)[i].size == Total(Sections(built)[i].content, WORD)
    {
      assert BuiltFrom(Sections(full)[i], Sections(built)[i]);
    }
  }

  /** The sections of the built segments are the compiled form of the parts. */
  lemma {:induction false} LaidCompiled(
    src: seq<Source>, ps: seq<nat>, gs: seq<SegmentView<Ref>>, loc: Location, parts: seq<Part>,
    built: seq<SegmentView<Ref>>)
    requires Laid(src, ps, gs, loc, parts, built)
    ensures Compiled(parts, Sections(built))
  {
    hide Laid, Distinct, Sections, NewContent, Translatable, PlaceAll, Total;
    LaidBuilt(src, ps, gs, loc, parts, built);
  }

  // ----- the address of every blob -----

  function AtSection(content: Content): map<Ref, nat>
  {
    if content == [] then map[] else AtSection(content[1..])[content[0].id := content[0].Start().vmaddr]
  }

  /** The vmaddr every pointer to a new blob leads to once the blobs are built. */
  function AtOf(ss: seq<SectionView<Ref>>): map<Ref, nat>
  {
    if ss == [] then map[] else AtOf(ss[1..]) + AtSection(ss[0].content)
  }

  ghost predicate UniqueIds(ss: seq<SectionView<Ref>>)
  {
    && (forall i :: 0 <= i < |ss| ==> DistinctIds(ss[i].content))
    && forall i, j :: 0 <= i < j < |ss| ==> Ids(ss[i].content) !! Ids(ss[j].content)
  }

  lemma {:induction false} AtSectionIs(content: Content, r: nat)
    requires DistinctIds(content)
    ensures AtSection(content).Keys == Ids(content)
    ensures r < |content| ==>
      content[r].id in AtSection(content) && AtSection(content)[content[r].id] == content[r].Start().vmaddr
    decreases |content|
  {
    hide Blob.Start;
    if content == [] {
    } else {
      DistinctHead(content);
      AtSectionIs(content[1..], if r == 0 then 0 else r - 1);
      if 0 < r < |content| {
        assert content[r] == content[1..][r - 1];
        assert content[r].id != content[0].id;
      }
    }
  }

  lemma {:induction false} AtOfIs(ss: seq<SectionView<Ref>>, i: nat, r: nat)
    requires UniqueIds(ss) && i < |ss| && r < |ss[i].content|
    ensures
      var b := ss[i].content[r];
      b.id in AtOf(ss) && AtOf(ss)[b.id] == b.Start().vmaddr
    decreases |ss|
  {
    hide Blob.Start, DistinctIds;
    var b := ss[i].content[r];
    assert b in ss[i].content && b.id in Ids(ss[i].content);
    if i == 0 {
      AtSectionIs(ss[0].content, r);
    } else {
      AtSectionIs(ss[0].content, 0);
      assert Ids(ss[0].content) !! Ids(ss[i].content);
      UniqueTail(ss);
      AtOfIs(ss[1..], i - 1, r);
    }
  }

  lemma {:induction false} UniqueTail(ss: seq<SectionView<Ref>>)
    requires UniqueIds(ss) && ss != []
    ensures UniqueIds(ss[1..])
  {
    hide DistinctIds, Ids;
    forall i | 0 <= i < |ss[1..]| ensures DistinctIds(ss[1..][i].content) {
      assert ss[1..][i] == ss[i + 1];
    }
    forall i, j | 0 <= i < j < |ss[1..]| ensures Ids(ss[1..][i].content) !! Ids(ss[1..][j].content) {
      assert ss[1..][i] == ss[i + 1] && ss[1..][j] == ss[j + 1];
    }
  }

  lemma {:induction false} AtOfDescribes(ss: seq<SectionView<Ref>>)
    requires UniqueIds(ss)
    ensures Describes(AtOf(ss), ss)
  {
    hide UniqueIds, AtOf, Blob.Start;
    forall i, r | 0 <= i < |ss| && 0 <= r < |ss[i].content|
      ensures ss[i].content[r].id in AtOf(ss) && AtOf(ss)[ss[i].content[r].id] == ss[i].content[r].Start().vmaddr
    {
      AtOfIs(ss, i, r);
    }
  }

  lemma {:induction false} LinkKeeps(b: Blob<Ref>, cells: map<Slot, Ref>)
    ensures LinkBlob(b, cells).id == b.id && LinkBlob(b, cells).active == b.active
  {
  }

  /** Where a compiled blob comes from: it is active and named after its origin. */
  lemma {:induction false} Origin(parts: seq<Part>, built: seq<SectionView<Ref>>, i: nat, r: nat) returns (x: nat, k: nat)
    requires Compiled(parts, built) && i < |parts| && r < |built[i].content|
    ensures x < |parts[i].content| && built[i].content[r].id == Made(parts[i].content[x].id, k)
    ensures built[i].content[r].active
    ensures ExpandAll(parts[i].content, parts[i].stubs).Ok?
    ensures r == Pos(parts[i].content, parts[i].stubs, x) + k
  {
    hide Expand, ExpandAll, BuildBlob, LinkBlob, PlaceAll, Pos, Total;
    PlacedAt(NewContent(parts, i), WORD, BaseOf(built[i]), r);
    x, k := PosInverse(parts[i].content, parts[i].stubs, r);
    ExpandIds(parts[i].content[x], parts[i].stubs, k);
    ExpandActive(parts[i].content[x], parts[i].stubs, k);
    LinkKeeps(ExpandAll(parts[i].content, parts[i].stubs).value[r], Cells(parts));
  }

  lemma {:induction false} ExpandActive(b: Blob<Ref>, stubs: bool, k: nat)
    requires Expand(b, stubs).Ok? && k < |Expand(b, stubs).value|
    ensures Expand(b, stubs).value[k].active
  {
  }

  lemma {:induction false} SameOrigin(parts: seq<Part>, built: seq<SectionView<Ref>>, i: nat, r: nat, j: nat, q: nat)
    requires Compiled(parts, built) && i < |parts| && r < |built[i].content|
    requires j < |parts| && q < |built[j].content| && built[i].content[r].id == built[j].content[q].id
    ensures i == j && r == q
  {
    var x, k := Origin(parts, built, i, r);
    var y, l := Origin(parts, built, j, q);
    assert Distinct(parts);
    hide Compiled, Pos, ExpandAll, DistinctIds;
    assert parts[i].content[x] in parts[i].content && parts[j].content[y] in parts[j].content;
    var id := parts[i].content[x].id;
    assert id in Ids(parts[i].content) && id in Ids(parts[j].content);
    SamePart(parts, i, j, id);
    SameIndex(parts[i].content, x, y);
  }

  lemma {:induction false} SameIndex(content: Content, x: nat, y: nat)
    requires x < |content| && y < |content|
    requires DistinctIds(content) && content[x].id == content[y].id
    ensures x == y
  {
  }

  lemma {:induction false} SamePart(parts: seq<Part>, i: nat, j: nat, id: Ref)
    requires Distinct(parts) && i < |parts| && j < |parts|
    requires id in Ids(parts[i].content) && id in Ids(parts[j].content)
    ensures i == j && DistinctIds(parts[i].content)
  {
    hide Ids, DistinctIds;
  }

  lemma {:induction false} CompiledUnique(parts: seq<Part>, built: seq<SectionView<Ref>>)
    requires Compiled(parts, built)
    ensures UniqueIds(built)
  {
    hide NewContent, PlaceAll, Distinct;
    forall i | 0 <= i < |built| ensures DistinctIds(built[i].content) {
      forall r, q | 0 <= r < q < |built[i].content| ensures built[i].content[r].id != built[i].content[q].id {
        if built[i].content[r].id == built[i].content[q].id {
          SameOrigin(parts, built, i, r, i, q);
        }
      }
    }
    forall i, j | 0 <= i < j < |built| ensures Ids(built[i].content) !! Ids(built[j].content) {
      forall id | id in Ids(built[i].content) ensures id !in Ids(built[j].content) {
        if id in Ids(built[j].content) {
          var a, b :| a in built[i].content && a.id == id && b in built[j].content && b.id == id;
          var r :| 0 <= r < |built[i].content| && built[i].content[r] == a;
          var q :| 0 <= q < |built[j].content| && built[j].content[q] == b;
          SameOrigin(parts, built, i, r, j, q);
        }
      }
    }
  }

  // ----- the loaded file -----

  /** One past the highest address of a segment that is mapped from the file. */
  function Top<R>(gs: seq<SegmentView<R>>): nat
  {
    if gs == [] then 0
    else
      var rest := Top(gs[1..]);
      if gs[0].Regular() && gs[0].vmaddr + gs[0].vmsize > rest then gs[0].vmaddr + gs[0].vmsize else rest
  }

  /** The byte mapped at `a`: that of the segment that covers it, zero behind the end of the file or of the segment. */
  function ByteAt<R>(gs: seq<SegmentView<R>>, img: bytes, a: nat): byte
  {
    if gs == [] then 0
    else
      var g := gs[0];
      if g.Regular() && g.vmaddr <= a < g.vmaddr + g.vmsize then
        var o := g.fileoff + (a - g.vmaddr);
        if o < g.fileoff + g.filesize && o < |img| then img[o] else 0
      else ByteAt(gs[1..], img, a)
  }

  /** Memory from address 0 on after the segments are mapped. */
  function MemoryOf<R>(gs: seq<SegmentView<R>>, img: bytes): (m: bytes)
    ensures |m| == Top(gs) && forall a :: 0 <= a < |m| ==> m[a] == ByteAt(gs, img, a)
  {
    seq(Top(gs), a requires 0 <= a => ByteAt(gs, img, a))
  }

  lemma {:induction false} TopIs<R>(gs: seq<SegmentView<R>>, k: nat)
    requires k < |gs| && gs[k].Regular()
    ensures gs[k].vmaddr + gs[k].vmsize <= Top(gs)
  {
    if k == 0 {
    } else {
      TopIs(gs[1..], k - 1);
    }
  }

  lemma {:induction false} ByteAtIs<R>(gs: seq<SegmentView<R>>, img: bytes, k: nat, o: nat)
    requires k < |gs| && gs[k].Regular() && gs[k].filesize == gs[k].vmsize
    requires gs[k].fileoff <= o < gs[k].fileoff + gs[k].filesize && o < |img|
    requires forall l :: 0 <= l < k && gs[l].Regular() ==> gs[l].vmaddr + gs[l].vmsize <= gs[k].vmaddr
    ensures ByteAt(gs, img, gs[k].vmaddr + (o - gs[k].fileoff)) == img[o]
  {
    if k == 0 {
    } else {
      forall l | 0 <= l < k - 1 && gs[1..][l].Regular() ensures gs[1..][l].vmaddr + gs[1..][l].vmsize <= gs[k].vmaddr {
        assert gs[1..][l] == gs[l + 1];
      }
      ByteAtIs(gs[1..], img, k - 1, o);
    }
  }

  /** Bytes that stand in a locked segment of the file stand in memory at the address in step with them. */
  lemma {:induction false} HeldIsLoaded<R>(gs: seq<SegmentView<R>>, img: bytes, k: nat, start: Location, bs: bytes)
    requires ArchiveLocked(gs, WORD) && k < |gs| && gs[k].Regular()
    requires gs[k].fileoff <= start.offset && start.offset + |bs| <= gs[k].fileoff + gs[k].filesize
    requires start.offset - gs[k].fileoff == start.vmaddr - gs[k].vmaddr
    requires bs != [] && Holds(img, start.offset, bs)
    ensures CodeAt(MemoryOf(gs, img), 0, start.vmaddr, bs)
  {
    assert SegmentLocked(gs[k], WORD);
    forall l | 0 <= l < k && gs[l].Regular() ensures gs[l].vmaddr + gs[l].vmsize <= gs[k].vmaddr {
      assert Follows(gs[l], gs[k]);
    }
    hide ArchiveLocked, SegmentLocked, Follows, Top, ByteAt, MemoryOf;
    TopIs(gs, k);
    var m := MemoryOf(gs, img);
    var at := start.vmaddr;
    assert at + |bs| <= |m|;
    forall d | 0 <= d < |bs| ensures m[at..at + |bs|][d] == bs[d] {
      assert m[at + d] == ByteAt(gs, img, at + d);
      assert img[start.offset..start.offset + |bs|][d] == img[start.offset + d];
      ByteAtIs(gs, img, k, start.offset + d);
    }
    assert m[at..at + |bs|] == bs;
  }

  // ----- the layout of the translation -----

  lemma {:induction false} NoneDormant(c: Content)
    requires forall r :: 0 <= r < |c| ==> c[r].active
    ensures forall r :: 0 <= r < |c| ==> !Dormant(c[r])
    ensures Emitted(c, WORD) == Total(c, WORD)
  {
    hide Emitted, Total;
    EmitMeetsBuild(c, WORD, |c|);
    assert c[..|c|] == c;
  }

  lemma {:induction false} LaidActive(
    src: seq<Source>, ps: seq<nat>, gs: seq<SegmentView<Ref>>, loc: Location, parts: seq<Part>,
    built: seq<SegmentView<Ref>>, i: nat)
    requires Laid(src, ps, gs, loc, parts, built) && i < |Sections(built)|
    ensures forall r :: 0 <= r < |Sections(built)[i].content| ==> Sections(built)[i].content[r].active
    ensures Emitted(Sections(built)[i].content, WORD) == Sections(built)[i].size
  {
    hide *;
    LaidBuilt(src, ps, gs, loc, parts, built);
    LaidCompiled(src, ps, gs, loc, parts, built);
    var c := Sections(built)[i].content;
    forall r | 0 <= r < |c| ensures c[r].active {
      var x, k := Origin(parts, Sections(built), i, r);
    }
    NoneDormant(c);
  }

  lemma {:induction false} SectionAt<R>(gs: seq<SegmentView<R>>, k: nat, m: nat) returns (i: nat)
    requires k < |gs| && m < |gs[k].sections|
    ensures i < |Sections(gs)| && Sections(gs)[i] == gs[k].sections[m]
  {
    if k == 0 {
      i := m;
    } else {
      i := SectionAt(gs[1..], k - 1, m);
      i := i + |gs[0].sections|;
    }
  }

  lemma {:induction false} LaidLocked(
    src: seq<Source>, ps: seq<nat>, gs: seq<SegmentView<Ref>>, loc: Location, parts: seq<Part>,
    built: seq<SegmentView<Ref>>)
    requires Laid(src, ps, gs, loc, parts, built)
    ensures ArchiveLocked(built, WORD) && forall k :: 0 <= k < |built| ==> NotBelow(built[k], loc)
  {
    hide Placed, AllRead, Sections, BuildSegments, Filled, AlignedToPages, ArchiveLocked, NotBelow;
    FilledShaped(gs, Contents(parts));
    BuildSegmentsLocked(Filled(gs, Contents(parts)), WORD, loc);
  }

  /** The layout of the translation is one whose writes do not meet. */
  lemma {:induction false} LaidIsLaidOut(
    src: seq<Source>, ps: seq<nat>, gs: seq<SegmentView<Ref>>, loc: Location, parts: seq<Part>,
    built: seq<SegmentView<Ref>>)
    requires Laid(src, ps, gs, loc, parts, built)
    ensures LaidOut(built, WORD, loc.offset)
  {
    LaidBuilt(src, ps, gs, loc, parts, built);
    LaidLocked(src, ps, gs, loc, parts, built);
    hide Laid, ArchiveLocked, Sections, Emitted, PlaceAll, Total, NewContent, AlignDown, Distinct;
    forall k, m | 0 <= k < |built| && 0 <= m < |built[k].sections|
      ensures loc.offset <= built[k].sections[m].offset
      ensures Emitted(built[k].sections[m].content, WORD) <= built[k].sections[m].size
    {
      var i := SectionAt(built, k, m);
      LaidActive(src, ps, gs, loc, parts, built, i);
      assert NotBelow(built[k], loc);
    }
  }

  // ----- the written file -----

  /**
   The file `img` written for `built`: header and commands fill the space in front of the first segment, the tables of
   the other commands lie in __LINKEDIT.
   */
  ghost predicate WrittenOut(
    header: bytes, cs: seq<Command<Ref>>, built: seq<SegmentView<Ref>>, loc: Location, index: map<nat, uint32>, img: bytes)
  {
    && AllValid(cs) && Segments(cs) == built && TablesIn(cs, built) && |header| + CommandsSize(cs) <= loc.offset
    && DoAll(ArchiveSteps(header, cs), WORD, AtOf(Sections(built)), index, []) == Some(img)
  }

  lemma {:induction false} BlobInFile(
    src: seq<Source>, ps: seq<nat>, gs: seq<SegmentView<Ref>>, loc: Location, parts: seq<Part>,
    built: seq<SegmentView<Ref>>, header: bytes, cs: seq<Command<Ref>>, index: map<nat, uint32>, img: bytes, i: nat, r: nat)
    requires Laid(src, ps, gs, loc, parts, built) && WrittenOut(header, cs, built, loc, index, img)
    requires i < |Sections(built)| && r < |Sections(built)[i].content|
    ensures Sections(built)[i].content[r].active
    ensures
      var b := Sections(built)[i].content[r];
      var bs := BlobBytes(b, WORD, AtOf(Sections(built)), index);
      && bs.Some? && Holds(img, b.Start().offset, bs.value)
      && b.Start() == BaseOf(Sections(built)[i]).Plus(Total(Sections(built)[i].content[..r], WORD))
  {
    hide *;
    var ss := Sections(built);
    LaidBuilt(src, ps, gs, loc, parts, built);
    LaidIsLaidOut(src, ps, gs, loc, parts, built);
    LaidActive(src, ps, gs, loc, parts, built, i);
    var k, m := SectionOf(built, i);
    WrittenOutIs(header, cs, built, loc, index, img);
    FileStands(header, cs, built, WORD, AtOf(ss), index, [], loc.offset, k, m, r);
    PlacedAt(NewContent(parts, i), WORD, BaseOf(ss[i]), r);
    EmitMeets(ss[i].content, r);
    WrittenHolds(ss[i], AtOf(ss), index, img, r);
  }

  lemma {:induction false} WrittenOutIs(
    header: bytes, cs: seq<Command<Ref>>, built: seq<SegmentView<Ref>>, loc: Location, index: map<nat, uint32>, img: bytes)
    requires WrittenOut(header, cs, built, loc, index, img)
    ensures AllValid(cs) && Segments(cs) == built && TablesIn(cs, built) && |header| + CommandsSize(cs) <= loc.offset
    ensures DoAll(ArchiveSteps(header, cs), WORD, AtOf(Sections(built)), index, []) == Some(img)
  {
  }

  lemma {:induction false} EmitMeets(c: Content, r: nat)
    requires r <= |c| && forall j :: 0 <= j < |c| ==> c[j].active
    ensures Emitted(c[..r], WORD) == Total(c[..r], WORD)
  {
    hide Emitted, Total;
    NoneDormant(c);
    EmitMeetsBuild(c, WORD, r);
  }

  lemma {:induction false} WrittenHolds(
    s: SectionView<Ref>, at: map<Ref, nat>, index: map<nat, uint32>, img: bytes, r: nat)
    requires r < |s.content| && Written(s.content, WORD, at, index, img, s.offset, r)
    requires Emitted(s.content[..r], WORD) == Total(s.content[..r], WORD)
    requires s.content[r].Start() == BaseOf(s).Plus(Total(s.content[..r], WORD))
    ensures
      var bs := BlobBytes(s.content[r], WORD, at, index);
      bs.Some? && Holds(img, s.content[r].Start().offset, bs.value)
  {
    hide BlobBytes, Holds, Emitted, Total, Blob.Start;
  }

  lemma {:induction false} BlobInSegment(built: seq<SegmentView<Ref>>, k: nat, m: nat, r: nat)
    requires ArchiveLocked(built, WORD) && k < |built| && built[k].Regular() && m < |built[k].sections|
    requires r < |built[k].sections[m].content|
    ensures
      var g, b := built[k], built[k].sections[m].content[r];
      && g.fileoff <= b.Start().offset && b.Start().offset + b.BuiltSize(WORD) <= g.fileoff + g.filesize
      && b.Start().offset - g.fileoff == b.Start().vmaddr - g.vmaddr && g.filesize == g.vmsize
  {
    assert SegmentLocked(built[k], WORD);
    hide Blob.Start, Blob.BuiltSize;
    assert SectionLocked(Location(built[k].fileoff, built[k].vmaddr), built[k].sections[m], WORD);
    assert BlobLocked(Location(built[k].fileoff, built[k].vmaddr), built[k].sections[m].content[r]);
  }

  lemma {:induction false} BytesFit(b: Blob<Ref>, at: map<Ref, nat>, index: map<nat, uint32>)
    requires b.active && BlobBytes(b, WORD, at, index).Some?
    ensures |BlobBytes(b, WORD, at, index).value| <= b.BuiltSize(WORD)
  {
    hide BlobBytes, Blob.Size;
  }

  /** Every blob of the translation stands in the memory the file is loaded into, at its address. */
  lemma {:induction false} FileIsLoaded(
    src: seq<Source>, ps: seq<nat>, gs: seq<SegmentView<Ref>>, loc: Location, parts: seq<Part>,
    built: seq<SegmentView<Ref>>, header: bytes, cs: seq<Command<Ref>>, index: map<nat, uint32>, img: bytes, i: nat)
    requires Laid(src, ps, gs, loc, parts, built) && WrittenOut(header, cs, built, loc, index, img)
    requires i < |parts|
    ensures Loaded(parts, Sections(built), AtOf(Sections(built)), index, i, MemoryOf(built, img))
  {
    hide *;
    var ss, at := Sections(built), AtOf(Sections(built));
    LaidBuilt(src, ps, gs, loc, parts, built);
    LaidCompiled(src, ps, gs, loc, parts, built);
    CompiledUnique(parts, ss);
    AtOfDescribes(ss);
    LaidLocked(src, ps, gs, loc, parts, built);
    var k, m := SectionOf(built, i);
    forall r | 0 <= r < |ss[i].content| && ss[i].content[r].active
      ensures InMemory(MemoryOf(built, img), ss[i].content[r], at, index)
    {
      var b := ss[i].content[r];
      BlobInFile(src, ps, gs, loc, parts, built, header, cs, index, img, i, r);
      BlobInSegment(built, k, m, r);
      BytesFit(b, at, index);
      if BlobBytes(b, WORD, at, index).value != [] {
        HeldIsLoaded(built, img, k, b.Start(), BlobBytes(b, WORD, at, index).value);
      }
      InMemoryIs(MemoryOf(built, img), b, at, index);
    }
    MappedIs(MemoryOf(built, img), ss[i].content, at, index);
    LoadedFrom(parts, ss, at, index, i, MemoryOf(built, img));
  }

  ghost predicate InMemory(text: bytes, b: Blob<Ref>, at: map<Ref, nat>, index: map<nat, uint32>)
  {
    var bs := BlobBytes(b, WORD, at, index);
    bs.Some? && (bs.value != [] ==> CodeAt(text, 0, b.Start().vmaddr, bs.value))
  }

  lemma {:induction false} InMemoryIs(text: bytes, b: Blob<Ref>, at: map<Ref, nat>, index: map<nat, uint32>)
    requires BlobBytes(b, WORD, at, index).Some?
    requires BlobBytes(b, WORD, at, index).value != [] ==>
      CodeAt(text, 0, b.Start().vmaddr, BlobBytes(b, WORD, at, index).value)
    ensures InMemory(text, b, at, index)
  {
    hide BlobBytes, CodeAt;
  }

  lemma {:induction false} MappedIs(text: bytes, content: Content, at: map<Ref, nat>, index: map<nat, uint32>)
    requires forall r :: 0 <= r < |content| && content[r].active ==> InMemory(text, content[r], at, index)
    ensures Mapped(text, content, at, index)
  {
    hide BlobBytes, CodeAt;
    forall r | 0 <= r < |content| && content[r].active
      ensures BlobBytes(content[r], WORD, at, index).Some?
      ensures BlobBytes(content[r], WORD, at, index).value != [] ==>
        CodeAt(text, 0, content[r].Start().vmaddr, BlobBytes(content[r], WORD, at, index).value)
    {
      assert InMemory(text, content[r], at, index);
    }
  }

  lemma {:induction false} LoadedFrom(
    parts: seq<Part>, built: seq<SectionView<Ref>>, at: map<Ref, nat>, index: map<nat, uint32>, i: nat, text: bytes)
    requires Compiled(parts, built) && Describes(at, built) && i < |parts| && |built| == |parts|
    requires Mapped(text, built[i].content, at, index)
    ensures Loaded(parts, built, at, index, i, text)
  {
    hide Compiled, Describes, Mapped;
  }

  // ----- the new addresses are near each other -----

  /** The loaded file lies below 4 GiB and spans less than 2 GiB. */
  predicate Compact(built: seq<SegmentView<Ref>>, loc: Location)
  {
    Top(built) < TWO_32 && Top(built) - loc.vmaddr < 0x8000_0000
  }

  predicate InSpan(built: seq<SegmentView<Ref>>, loc: Location, a: nat)
  {
    loc.vmaddr <= a <= Top(built)
  }

  lemma {:induction false} SectionSpan(
    src: seq<Source>, ps: seq<nat>, gs: seq<SegmentView<Ref>>, loc: Location, parts: seq<Part>,
    built: seq<SegmentView<Ref>>, i: nat)
    requires Laid(src, ps, gs, loc, parts, built) && i < |Sections(built)|
    ensures loc.vmaddr <= Sections(built)[i].addr && Sections(built)[i].addr + Sections(built)[i].size <= Top(built)
  {
    LaidBuilt(src, ps, gs, loc, parts, built);
    LaidLocked(src, ps, gs, loc, parts, built);
    var k, m := SectionOf(built, i);
    hide Laid, Sections, PlaceAll, Total, NewContent, AlignDown, Distinct, Top, BlobLocked, Follows;
    assert built[k].Regular() && NotBelow(built[k], loc) && SegmentLocked(built[k], WORD);
    assert SectionLocked(Location(built[k].fileoff, built[k].vmaddr), built[k].sections[m], WORD);
    TopIs(built, k);
  }

  /** An instruction and what follows it lie in the span of the file. */
  lemma {:induction false} AddrSpan(
    src: seq<Source>, ps: seq<nat>, gs: seq<SegmentView<Ref>>, loc: Location, parts: seq<Part>,
    built: seq<SegmentView<Ref>>, i: nat, x: nat)
    requires Laid(src, ps, gs, loc, parts, built) && i < |parts| && x < |parts[i].content|
    ensures |Sections(built)| == |parts|
    ensures InSpan(built, loc, Addr(parts, i, x, 0, AtOf(Sections(built))))
    ensures Made(parts[i].content[x].id, 0) in AtOf(Sections(built))
    ensures InSpan(built, loc, Next(parts, Sections(built), i, x, AtOf(Sections(built))))
  {
    hide *;
    var ss, at := Sections(built), AtOf(Sections(built));
    LaidDescribes(src, ps, gs, loc, parts, built);
    FirstSpan(src, ps, gs, loc, parts, built, i, x);
    NextIs(parts, ss, i, x, at);
    if x + 1 < |parts[i].content| {
      FirstSpan(src, ps, gs, loc, parts, built, i, x + 1);
    } else {
      LaidBuilt(src, ps, gs, loc, parts, built);
      SectionSpan(src, ps, gs, loc, parts, built, i);
      SpanIs(built, loc, Next(parts, ss, i, x, at));
    }
  }

  lemma {:induction false} SpanIs(built: seq<SegmentView<Ref>>, loc: Location, a: nat)
    ensures InSpan(built, loc, a) <==> loc.vmaddr <= a <= Top(built)
  {
  }

  lemma {:induction false} LaidDescribes(
    src: seq<Source>, ps: seq<nat>, gs: seq<SegmentView<Ref>>, loc: Location, parts: seq<Part>,
    built: seq<SegmentView<Ref>>)
    requires Laid(src, ps, gs, loc, parts, built)
    ensures |Sections(built)| == |parts| == |src| && Compiled(parts, Sections(built))
    ensures Describes(AtOf(Sections(built)), Sections(built))
  {
    hide *;
    LaidBuilt(src, ps, gs, loc, parts, built);
    LaidCompiled(src, ps, gs, loc, parts, built);
    CompiledUnique(parts, Sections(built));
    AtOfDescribes(Sections(built));
  }

  lemma {:induction false} FirstSpan(
    src: seq<Source>, ps: seq<nat>, gs: seq<SegmentView<Ref>>, loc: Location, parts: seq<Part>,
    built: seq<SegmentView<Ref>>, i: nat, x: nat)
    requires Laid(src, ps, gs, loc, parts, built) && i < |parts| && x < |parts[i].content|
    ensures InSpan(built, loc, Addr(parts, i, x, 0, AtOf(Sections(built))))
    ensures Made(parts[i].content[x].id, 0) in AtOf(Sections(built))
  {
    hide *;
    var ss, at := Sections(built), AtOf(Sections(built));
    LaidBuilt(src, ps, gs, loc, parts, built);
    LaidDescribes(src, ps, gs, loc, parts, built);
    SectionSpan(src, ps, gs, loc, parts, built, i);
    SpotExpands(parts, ss, i, x);
    Spot(parts, ss, at, i, x, 0);
    CompiledIs(parts, ss, i);
    TotalMonotone(ss[i].content, WORD, SpotOf(parts, i, x, 0));
    SpanIs(built, loc, Addr(parts, i, x, 0, at));
    FinalAt(parts, ss, at, i, x);
  }

  lemma {:induction false} TargetSpan(
    src: seq<Source>, ps: seq<nat>, gs: seq<SegmentView<Ref>>, loc: Location, parts: seq<Part>,
    built: seq<SegmentView<Ref>>, key: Ref)
    requires Laid(src, ps, gs, loc, parts, built) && key in AllIds(parts)
    ensures Made(key, 0) in AtOf(Sections(built)) && InSpan(built, loc, AtOf(Sections(built))[Made(key, 0)])
  {
    hide *;
    AllIdsIn(parts, key);
    var j :| 0 <= j < |parts| && key in Ids(parts[j].content);
    var y := IdAt(parts[j].content, key);
    FirstSpan(src, ps, gs, loc, parts, built, j, y);
    AddrOf(parts, j, y, 0, AtOf(Sections(built)));
  }

  lemma {:induction false} IdAt(content: Content, key: Ref) returns (y: nat)
    requires key in Ids(content)
    ensures y < |content| && content[y].id == key
  {
    var b :| b in content && b.id == key;
    y :| 0 <= y < |content| && content[y] == b;
  }

  // ----- the i386 program at its new addresses -----

  /** The new address a reference to the input leads to. */
  function Goal(p: Option<Ref>, ids: set<Ref>, at: map<Ref, nat>): Option<uint32>
  {
    if p.Some? && p.value.PlaceAt? && p.value in ids && Made(p.value, 0) in at && at[Made(p.value, 0)] < TWO_32
    then Some(at[Made(p.value, 0)])
    else None
  }

  /** Where a branch without other operands leads. */
  function BranchGoal(insn: Insn<Ref>, ids: set<Ref>, at: map<Ref, nat>): Option<uint32>
  {
    if insn.memdisp.None? && insn.imm.None? then Goal(insn.brdisp, ids, at) else None
  }

  /** The i386 instruction a decoded one is, with code addresses those of the new layout, if it is of a modelled form. */
  function OpOf(insn: Insn<Ref>, ids: set<Ref>, at: map<Ref, nat>): Option<Op32>
  {
    var goal := BranchGoal(insn, ids, at);
    match insn.iform
    case PushGpr => if NotRebased(insn) && insn.reg0 < 8 then Some(PushReg(insn.reg0)) else None
    case PushImmB => if NotRebased(insn) then Some(PushConst(insn.operand)) else None
    case PushImmZ => if NotRebased(insn) then Some(PushConst(insn.operand)) else None
    case PopGpr => if NotRebased(insn) && insn.reg0 < 8 then Some(PopReg(insn.reg0)) else None
    case CallGpr => if NotRebased(insn) && insn.reg0 < 8 then Some(CallReg(insn.reg0)) else None
    case CallRelZ => if goal.Some? then Some(CallTo(goal.value)) else None
    case RetNear => if NotRebased(insn) then Some(Ret) else None
    case IncGpr => if NotRebased(insn) && insn.reg0 < 8 then Some(IncReg(insn.reg0)) else None
    case DecGpr => if NotRebased(insn) && insn.reg0 < 8 then Some(DecReg(insn.reg0)) else None
    case JmpRelB => if goal.Some? && |insn.buf| == 2 then Some(Jump(goal.value)) else None
    case JmpRelZ => if goal.Some? && |insn.buf| == 5 && insn.buf[0] == 0xe9 then Some(Jump(goal.value)) else None
    case JccRelB =>
      if goal.Some? && |insn.buf| == 2 && 0x70 <= insn.buf[0] < 0x80 then Some(Branch(insn.buf[0] - 0x70, goal.value))
      else None
    case JccRelZ =>
      if goal.Some? && |insn.buf| == 6 && insn.buf[0] == 0x0f && 0x80 <= insn.buf[1] < 0x90
      then Some(Branch(insn.buf[1] - 0x80, goal.value))
      else None
    case MovGprImm =>
      if insn.imm.None? then None
      else if insn.imm.value.pointee.Some? then
        var target := Goal(insn.imm.value.pointee, ids, at);
        if insn.reg0 < 8 && target.Some? then Some(LoadAddress(insn.reg0, target.value)) else None
      else if |insn.buf| == 5 && 0xb8 <= insn.buf[0] < 0xc0 && insn.memdisp.None? && insn.brdisp.None? then
        Some(LoadConst(insn.buf[0] - 0xb8, insn.imm.value.value))
      else None
    case PushMem =>
      if NotRebased(insn) && PushOperand(insn.buf).Some? && insn.buf[1] != 0x35
      then Some(Op32.PushMem(PushOperand(insn.buf).value))
      else None
    case Plain => if insn.memdisp.None? && insn.brdisp.None? && insn.imm.None? then AccessOf(insn.buf) else None
    case _ => None
  }

  /** A load, a store or a lea with any operand but an absolute address. */
  function AccessOf(buf: bytes): Option<Op32>
  {
    if |buf| < 2 || Absolute(buf[1]) then None
    else
      var load, store, lea := RegMem(buf, 0x8b), RegMem(buf, 0x89), RegMem(buf, 0x8d);
      if load.Some? then Some(LoadMem(load.value.0, load.value.1))
      else if store.Some? then Some(StoreMem(store.value.1, store.value.0))
      else if lea.Some? then Some(LeaMem(lea.value.0, lea.value.1))
      else None
  }

  lemma {:induction false} OpMeans(insn: Insn<Ref>, ids: set<Ref>, at: map<Ref, nat>)
    requires OpOf(insn, ids, at).Some?
    ensures Means(insn, ids, at, OpOf(insn, ids, at).value)
  {
    hide PushOperand, RegMem, Absolute;
    if insn.iform.MovGprImm? && insn.imm.value.pointee.None? {
      assert insn.buf[..1] == [insn.buf[0]];
    }
  }

  /** Every code address `op` names is where the first blob made from some input blob stands. */
  lemma {:induction false} OpGoal(insn: Insn<Ref>, ids: set<Ref>, at: map<Ref, nat>, lo: int, hi: int, next: nat)
    requires OpOf(insn, ids, at).Some? && lo <= next <= hi && hi - lo < 0x8000_0000
    requires forall key :: key in ids && Made(key, 0) in at ==> lo <= at[Made(key, 0)] <= hi
    ensures Near(OpOf(insn, ids, at).value, next)
  {
  }

  /** `op`, at `addr` with the next instruction at `next`, is blob `x` of section `i`. */
  ghost predicate Occurs(
    parts: seq<Part>, built: seq<SectionView<Ref>>, at: map<Ref, nat>, i: nat, x: nat, addr: nat, op: Op32, next: nat)
  {
    && i < |parts| && i < |built| && x < |parts[i].content| && parts[i].content[x].kind.Inst?
    && OpOf(parts[i].content[x].kind.insn, AllIds(parts), at) == Some(op)
    && addr == Addr(parts, i, x, 0, at) && next == Next(parts, built, i, x, at)
  }

  /** `code` is made of instructions of the input, moved to where their translations stand. */
  ghost predicate Relocated(code: Code32, parts: seq<Part>, built: seq<SectionView<Ref>>, at: map<Ref, nat>)
  {
    forall addr :: addr in code ==>
      exists i: nat, x: nat :: Occurs(parts, built, at, i, x, addr, code[addr].0, code[addr].1)
  }

  lemma {:induction false} OccursStands(
    src: seq<Source>, ps: seq<nat>, gs: seq<SegmentView<Ref>>, loc: Location, parts: seq<Part>,
    built: seq<SegmentView<Ref>>, header: bytes, cs: seq<Command<Ref>>, index: map<nat, uint32>, img: bytes,
    i: nat, x: nat, addr: nat, op: Op32, next: nat)
    requires Laid(src, ps, gs, loc, parts, built) && WrittenOut(header, cs, built, loc, index, img)
    requires Compact(built, loc) && Occurs(parts, Sections(built), AtOf(Sections(built)), i, x, addr, op, next)
    ensures Stands(parts, Sections(built), AtOf(Sections(built)), index, i, MemoryOf(built, img), x, addr, op, next)
  {
    hide *;
    var ss, at := Sections(built), AtOf(Sections(built));
    OccursIs(parts, ss, at, i, x, addr, op, next);
    var insn := parts[i].content[x].kind.insn;
    FileIsLoaded(src, ps, gs, loc, parts, built, header, cs, index, img, i);
    AddrSpan(src, ps, gs, loc, parts, built, i, x);
    OpMeans(insn, AllIds(parts), at);
    CompactIs(built, loc, next);
    forall key | key in AllIds(parts) && Made(key, 0) in at ensures loc.vmaddr <= at[Made(key, 0)] <= Top(built) {
      TargetSpan(src, ps, gs, loc, parts, built, key);
      SpanIs(built, loc, at[Made(key, 0)]);
    }
    OpGoal(insn, AllIds(parts), at, loc.vmaddr, Top(built), next);
    StandsIs(parts, ss, at, index, i, MemoryOf(built, img), x, addr, op, next);
  }

  lemma {:induction false} OccursIs(
    parts: seq<Part>, built: seq<SectionView<Ref>>, at: map<Ref, nat>, i: nat, x: nat, addr: nat, op: Op32, next: nat)
    requires Occurs(parts, built, at, i, x, addr, op, next)
    ensures i < |parts| && i < |built| && x < |parts[i].content| && parts[i].content[x].kind.Inst?
    ensures OpOf(parts[i].content[x].kind.insn, AllIds(parts), at) == Some(op)
    ensures addr == Addr(parts, i, x, 0, at) && next == Next(parts, built, i, x, at)
  {
  }

  lemma {:induction false} CompactIs(built: seq<SegmentView<Ref>>, loc: Location, next: nat)
    requires Compact(built, loc) && InSpan(built, loc, next)
    ensures next < TWO_32 && loc.vmaddr <= next <= Top(built) && Top(built) - loc.vmaddr < 0x8000_0000
  {
  }

  lemma {:induction false} StandsIs(
    parts: seq<Part>, built: seq<SectionView<Ref>>, at: map<Ref, nat>, index: map<nat, uint32>, i: nat, text: bytes,
    x: nat, addr: nat, op: Op32, next: nat)
    requires Pipeline.Loaded(parts, built, at, index, i, text) && i < |parts| && i < |built| && x < |parts[i].content|
    requires parts[i].content[x].kind.Inst? && Means(parts[i].content[x].kind.insn, AllIds(parts), at, op)
    requires addr == Addr(parts, i, x, 0, at) && next == Next(parts, built, i, x, at)
    requires next < TWO_32 && Near(op, next)
    ensures Stands(parts, built, at, index, i, text, x, addr, op, next)
  {
    hide Pipeline.Loaded, Means, Addr, Next, Near;
  }

  /**
   The translation is correct: if the passes succeed and the file they lay out is compact, every run of the i386
   program, its instructions taken from any sections and moved to their new addresses, is matched by a run of the
   x86_64 processor on the file they write, loaded.
   */
  lemma {:induction false} TranslationSimulates(
    src: seq<Source>, ps: seq<nat>, gs: seq<SegmentView<Ref>>, loc: Location, parts: seq<Part>,
    built: seq<SegmentView<Ref>>, header: bytes, cs: seq<Command<Ref>>, index: map<nat, uint32>, img: bytes,
    code: Code32, n: nat, s: Cpu32, t: Cpu64) returns (m: nat)
    requires Laid(src, ps, gs, loc, parts, built) && WrittenOut(header, cs, built, loc, index, img)
    requires Compact(built, loc) && Relocated(code, parts, Sections(built), AtOf(Sections(built)))
    requires Rel(s, t) && Run32(code, n, s).Some? && SafeRun(code, n, s)
    ensures n <= m && Run64(MemoryOf(built, img), 0, m, t).Some?
    ensures Rel(Run32(code, n, s).value, Run64(MemoryOf(built, img), 0, m, t).value)
  {
    hide *;
    RelocatedStands(src, ps, gs, loc, parts, built, header, cs, index, img, code);
    m := EmittedProgramSimulates(code, parts, Sections(built), AtOf(Sections(built)), index, MemoryOf(built, img), n, s, t);
  }

  lemma {:induction false} RelocatedStands(
    src: seq<Source>, ps: seq<nat>, gs: seq<SegmentView<Ref>>, loc: Location, parts: seq<Part>,
    built: seq<SegmentView<Ref>>, header: bytes, cs: seq<Command<Ref>>, index: map<nat, uint32>, img: bytes, code: Code32)
    requires Laid(src, ps, gs, loc, parts, built) && WrittenOut(header, cs, built, loc, index, img)
    requires Compact(built, loc) && Relocated(code, parts, Sections(built), AtOf(Sections(built)))
    ensures ProgramOf(code, parts, Sections(built), AtOf(Sections(built)), index, MemoryOf(built, img))
  {
    hide Laid, WrittenOut, Compact, Occurs, Stands, Sections, AtOf, MemoryOf;
    forall addr | addr in code
      ensures exists i: nat, x: nat ::
        Stands(parts, Sections(built), AtOf(Sections(built)), index, i, MemoryOf(built, img), x, addr,
               code[addr].0, code[addr].1)
    {
      var i: nat, x: nat :| Occurs(parts, Sections(built), AtOf(Sections(built)), i, x, addr, code[addr].0, code[addr].1);
      OccursStands(src, ps, gs, loc, parts, built, header, cs, index, img, i, x, addr, code[addr].0, code[addr].1);
    }
  }

  // ----- every reference of the input, in the loaded file -----

  /** Where blob `u` of a section is once placeholders are merged in. */
  lemma {:induction false} InterleavedHas(content: Content, ps: seq<nat>, u: nat) returns (q: nat)
    requires u < |content|
    ensures q < |Interleave(content, ps)| && Interleave(content, ps)[q] == content[u]
  {
    var n := if content[0].loc.vmaddr in ps then 2 else 1;
    if u == 0 {
      q := n - 1;
    } else {
      q := InterleavedHas(content[1..], ps, u - 1);
      q := q + n;
    }
  }

  lemma {:induction false} PlacedHas(src: seq<Source>, ps: seq<nat>, parts: seq<Part>, i: nat, u: nat) returns (x: nat)
    requires Placed(src, ps, parts) && i < |src| && u < |src[i].content|
    ensures |parts| == |src| && x < |parts[i].content| && parts[i].content[x] == src[i].content[u]
    ensures parts[i].stubs == src[i].stubs
  {
    x := InterleavedHas(src[i].content, ps, u);
    hide Interleave, TakesEnd;
  }

  /** The bytes of an instruction made from a blob stand in memory. */
  lemma {:induction false} FinalStands(
    parts: seq<Part>, built: seq<SectionView<Ref>>, at: map<Ref, nat>, index: map<nat, uint32>, i: nat, text: bytes,
    x: nat, k: nat)
    requires Pipeline.Loaded(parts, built, at, index, i, text) && x < |parts[i].content|
    requires Expand(parts[i].content[x], parts[i].stubs).Ok? && k < |Made64(parts, i, x)|
    ensures k < |Expand(parts[i].content[x], parts[i].stubs).value|
    ensures var f := Final(parts, built, i, x, k);
      f.active && f.kind.Inst? ==>
        && InsnBytes(f.kind.insn, f.loc, at).Some?
        && (f.kind.insn.buf != [] ==> CodeAt(text, 0, f.loc.vmaddr, InsnBytes(f.kind.insn, f.loc, at).value))
  {
    hide *;
    LoadedIs(parts, built, at, index, i, text);
    Made64Is(parts, i, x);
    Spot(parts, built, at, i, x, k);
    LoadedMapped(parts, built, at, index, i, text);
    var f := Final(parts, built, i, x, k);
    if f.active && f.kind.Inst? {
      MappedInsn(text, built[i].content, at, index, SpotOf(parts, i, x, k));
    }
  }

  /** Any two addresses in a compact file are within reach of a 32-bit displacement. */
  lemma {:induction false} WithinReach(built: seq<SegmentView<Ref>>, loc: Location, a: nat, b: nat)
    requires Compact(built, loc) && InSpan(built, loc, a) && InSpan(built, loc, b)
    ensures -0x8000_0000 <= a - b < 0x8000_0000
  {
    hide Top;
  }

  /** A blob of the translation ends within the span of the file. */
  lemma {:induction false} FinalSpan(
    src: seq<Source>, ps: seq<nat>, gs: seq<SegmentView<Ref>>, loc: Location, parts: seq<Part>,
    built: seq<SegmentView<Ref>>, i: nat, x: nat, k: nat)
    requires Laid(src, ps, gs, loc, parts, built) && i < |parts| && x < |parts[i].content|
    requires Compiled(parts, Sections(built)) && Expand(parts[i].content[x], parts[i].stubs).Ok?
    requires k < |Expand(parts[i].content[x], parts[i].stubs).value|
    ensures
      var f := Final(parts, Sections(built), i, x, k);
      InSpan(built, loc, f.Start().vmaddr + f.BuiltSize(WORD)) && f.active
  {
    hide *;
    var ss := Sections(built);
    LaidDescribes(src, ps, gs, loc, parts, built);
    LaidBuilt(src, ps, gs, loc, parts, built);
    SectionSpan(src, ps, gs, loc, parts, built, i);
    Made64Is(parts, i, x);
    Spot(parts, ss, AtOf(ss), i, x, k);
    CompiledIs(parts, ss, i);
    LaidActive(src, ps, gs, loc, parts, built, i);
    var r := SpotOf(parts, i, x, k);
    TotalSplit(ss[i].content, WORD, r);
    TotalMonotone(ss[i].content, WORD, r + 1);
    var f := Final(parts, ss, i, x, k);
    SpanIs(built, loc, f.Start().vmaddr + f.BuiltSize(WORD));
  }

  lemma {:induction false} InsnEnds(f: Blob<Ref>)
    requires f.kind.Inst? && f.active
    ensures f.Start() == f.loc && f.BuiltSize(WORD) == |f.kind.insn.buf|
  {
  }

  /** The new address of the blob that stood at `t`. */
  lemma {:induction false} GoalSpan(
    src: seq<Source>, ps: seq<nat>, gs: seq<SegmentView<Ref>>, loc: Location, parts: seq<Part>,
    built: seq<SegmentView<Ref>>, j: nat, y: nat)
    requires Laid(src, ps, gs, loc, parts, built)
    requires j < |src| && y < |src[j].content| && src[j].content[y].loc.vmaddr in ps
    ensures
      var goal := Made(BlobAt(src[j].content[y].loc.vmaddr), 0);
      goal in AtOf(Sections(built)) && InSpan(built, loc, AtOf(Sections(built))[goal])
  {
    hide *;
    var ss, t := Sections(built), src[j].content[y].loc.vmaddr;
    LaidRead(src, ps, gs, loc, parts, built, j);
    LaidDescribes(src, ps, gs, loc, parts, built);
    TargetKept(src, ps, parts, ss, AtOf(ss), j, y);
    TargetSpan(src, ps, gs, loc, parts, built, PlaceAt(t));
  }

  lemma {:induction false} LaidRead(
    src: seq<Source>, ps: seq<nat>, gs: seq<SegmentView<Ref>>, loc: Location, parts: seq<Part>,
    built: seq<SegmentView<Ref>>, j: nat)
    requires Laid(src, ps, gs, loc, parts, built) && j < |src|
    ensures WellRead(src[j], 4) && AllRead(src) && Placed(src, ps, parts) && |parts| == |src|
  {
    hide WellRead, Sections, Filled, BuildSegments, Shaped, Merged, TakesEnd;
  }

  /**
   Every relative branch of the input to the start of a blob, whatever expansion or widening happened between, stands
   in the loaded file and leads to the new place of that blob.
   */
  lemma {:induction false} BranchesLead(
    src: seq<Source>, ps: seq<nat>, gs: seq<SegmentView<Ref>>, loc: Location, parts: seq<Part>,
    built: seq<SegmentView<Ref>>, header: bytes, cs: seq<Command<Ref>>, index: map<nat, uint32>, img: bytes,
    i: nat, u: nat, j: nat, y: nat) returns (f: Blob<Ref>, bs: bytes)
    requires Laid(src, ps, gs, loc, parts, built) && WrittenOut(header, cs, built, loc, index, img) && Compact(built, loc)
    requires j < |src| && y < |src[j].content| && src[j].content[y].loc.vmaddr in ps
    requires i < |src| && u < |src[i].content| && BranchTo(src[i].content[u], src[j].content[y].loc.vmaddr)
    ensures i < |Sections(built)| && f in Sections(built)[i].content
    ensures f.id == Made(src[i].content[u].id, Carrier(src[i].content[u])) && f.kind.Inst?
    ensures |bs| == |f.kind.insn.buf| >= 4 && CodeAt(MemoryOf(built, img), 0, f.loc.vmaddr, bs)
    ensures
      var goal := Made(BlobAt(src[j].content[y].loc.vmaddr), 0);
      goal in AtOf(Sections(built)) && BranchTarget(f.kind.insn, f.loc, bs) == AtOf(Sections(built))[goal]
  {
    hide *;
    var ss, at := Sections(built), AtOf(Sections(built));
    LaidRead(src, ps, gs, loc, parts, built, j);
    var x := PlacedHas(src, ps, parts, i, u);
    var k := Carrier(parts[i].content[x]);
    LaidDescribes(src, ps, gs, loc, parts, built);
    BranchPreserved(src, ps, parts, ss, at, i, x, j, y);
    Made64Is(parts, i, x);
    FileIsLoaded(src, ps, gs, loc, parts, built, header, cs, index, img, i);
    FinalStands(parts, ss, at, index, i, MemoryOf(built, img), x, k);
    FinalIs(parts, ss, at, i, x, k);
    Spot(parts, ss, at, i, x, k);
    FinalSpan(src, ps, gs, loc, parts, built, i, x, k);
    f := Final(parts, ss, i, x, k);
    InsnEnds(f);
    bs := InsnBytes(f.kind.insn, f.loc, at).value;
    GoalSpan(src, ps, gs, loc, parts, built, j, y);
    WithinReach(built, loc, at[Made(BlobAt(src[j].content[y].loc.vmaddr), 0)], f.loc.vmaddr + |f.kind.insn.buf|);
  }

  /** Every rebased immediate of the input that names the start of a blob leads to the new place of that blob. */
  lemma {:induction false} ImmediatesLead(
    src: seq<Source>, ps: seq<nat>, gs: seq<SegmentView<Ref>>, loc: Location, parts: seq<Part>,
    built: seq<SegmentView<Ref>>, header: bytes, cs: seq<Command<Ref>>, index: map<nat, uint32>, img: bytes,
    i: nat, u: nat, j: nat, y: nat) returns (f: Blob<Ref>, bs: bytes)
    requires Laid(src, ps, gs, loc, parts, built) && WrittenOut(header, cs, built, loc, index, img) && Compact(built, loc)
    requires j < |src| && y < |src[j].content| && src[j].content[y].loc.vmaddr in ps
    requires i < |src| && u < |src[i].content|
    requires ImmTo(src[i].content[u], src[i].stubs, src[j].content[y].loc.vmaddr)
    ensures i < |Sections(built)| && f in Sections(built)[i].content
    ensures f.id == Made(src[i].content[u].id, 0) && f.kind.Inst?
    ensures |bs| == |f.kind.insn.buf| && f.kind.insn.dispPos + 4 <= |bs|
    ensures CodeAt(MemoryOf(built, img), 0, f.loc.vmaddr, bs)
    ensures
      var goal := Made(BlobAt(src[j].content[y].loc.vmaddr), 0);
      goal in AtOf(Sections(built)) && MemTarget(f.kind.insn, f.loc, bs) == AtOf(Sections(built))[goal]
  {
    hide *;
    var ss, at := Sections(built), AtOf(Sections(built));
    LaidRead(src, ps, gs, loc, parts, built, j);
    var x := PlacedHas(src, ps, parts, i, u);
    LaidDescribes(src, ps, gs, loc, parts, built);
    ImmediatePreserved(src, ps, parts, ss, at, i, x, j, y);
    SpotExpands(parts, ss, i, x);
    Made64Is(parts, i, x);
    FileIsLoaded(src, ps, gs, loc, parts, built, header, cs, index, img, i);
    FinalStands(parts, ss, at, index, i, MemoryOf(built, img), x, 0);
    FinalIs(parts, ss, at, i, x, 0);
    Spot(parts, ss, at, i, x, 0);
    FinalSpan(src, ps, gs, loc, parts, built, i, x, 0);
    f := Final(parts, ss, i, x, 0);
    InsnEnds(f);
    bs := InsnBytes(f.kind.insn, f.loc, at).value;
    GoalSpan(src, ps, gs, loc, parts, built, j, y);
    WithinReach(built, loc, at[Made(BlobAt(src[j].content[y].loc.vmaddr), 0)], f.loc.vmaddr + |f.kind.insn.buf|);
  }

  // ----- running the passes -----

  /** What the layout pass needs of the new blobs: no branch it cannot widen. */
  ghost predicate AllBuildable(contents: seq<Content>)
  {
    forall i, r :: 0 <= i < |contents| && 0 <= r < |contents[i]| ==> Buildable(contents[i][r])
  }

  lemma {:induction false} FilledBuildable(gs: seq<SegmentView<Ref>>, contents: seq<Content>, loc: Location)
    requires Shaped(gs) && |contents| == |Sections(gs)| && loc.vmaddr % PAGE_SIZE == 0
    ensures BuildSegments(Filled(gs, contents), WORD, loc).Some? <==> AllBuildable(contents)
  {
    FilledShaped(gs, contents);
    FilledSections(gs, contents);
    var full := Filled(gs, contents);
    hide Filled, Sections, BuildSegments, Buildable;
    BuildSegmentsIff(full, WORD, loc);
    if AllBuildable(contents) {
      forall k, m, r | 0 <= k < |full| && 0 <= m < |full[k].sections| && 0 <= r < |full[k].sections[m].content|
        ensures Buildable(full[k].sections[m].content[r])
      {
        var i := SectionAt(full, k, m);
        assert full[k].sections[m].content == contents[i];
      }
    }
    if forall k :: 0 <= k < |full| ==> SegmentBuildable(full[k]) {
      forall i, r | 0 <= i < |contents| && 0 <= r < |contents[i]| ensures Buildable(contents[i][r]) {
        var k, m := SectionOf(full, i);
        assert full[k].sections[m].content == contents[i] && SegmentBuildable(full[k]);
        assert full[k].Regular();
      }
    }
  }

  /**
   When the passes succeed: every placeholder can be placed, every blob translated, every branch widened, and every
   section numbered.
   */
  ghost predicate Translates64(src: seq<Source>, ps: seq<nat>)
  {
    && |src| <= Builder.MAX_SECT
    && (forall p :: p in ps ==> Placeable(src, p))
    && forall parts :: Placed(src, ps, parts) ==> Translatable(parts) && AllBuildable(Contents(parts))
  }

  lemma {:induction false} PlacedUnique(src: seq<Source>, ps: seq<nat>, parts: seq<Part>, parts': seq<Part>)
    requires Placed(src, ps, parts) && Placed(src, ps, parts')
    ensures parts == parts'
  {
    hide Merged, TakesEnd;
    forall i | 0 <= i < |parts| ensures parts[i] == parts'[i] {
      assert parts[i] == Part(parts[i].content, parts[i].stubs);
    }
  }

  lemma {:induction false} Translates64Is(src: seq<Source>, ps: seq<nat>, parts: seq<Part>)
    requires Placed(src, ps, parts)
    ensures Translates64(src, ps) <==>
            && |src| <= Builder.MAX_SECT && (forall p :: p in ps ==> Placeable(src, p))
            && Translatable(parts) && AllBuildable(Contents(parts))
  {
    hide Placed, Placeable, Translatable, AllBuildable;
    forall parts' | Placed(src, ps, parts') ensures parts' == parts {
      PlacedUnique(src, ps, parts, parts');
    }
  }

  /** As many section objects as sections. */
  lemma {:induction false} CountSections(a: Builder.Archive<Ref>, gs: seq<SegmentView<Ref>>, n: nat)
    requires a.Valid() && a.Shows(gs) && n <= |gs|
    ensures n <= |a.segments| && a.SectionsBefore(n) == |Sections(gs[..n])|
  {
    if n == 0 {
    } else {
      CountSections(a, gs, n - 1);
      assert a.segments[n - 1].View() == gs[n - 1];
      SectionsAppend(gs[..n - 1], gs[n - 1]);
      assert gs[..n] == gs[..n - 1] + [gs[n - 1]];
    }
  }

  lemma {:induction false} SectionsAppend(gs: seq<SegmentView<Ref>>, g: SegmentView<Ref>)
    ensures Sections(gs + [g]) == Sections(gs) + g.sections
  {
    if gs == [] {
      assert [] + [g] == [g] && [g][1..] == [];
      assert g.sections + [] == g.sections && [] + g.sections == g.sections;
    } else {
      assert (gs + [g])[1..] == gs[1..] + [g];
      SectionsAppend(gs[1..], g);
      assert gs[0].sections + (Sections(gs[1..]) + g.sections) == gs[0].sections + Sections(gs[1..]) + g.sections;
    }
  }

  lemma {:induction false} AllShown(a: Builder.Archive<Ref>, gs: seq<SegmentView<Ref>>)
    requires a.Valid() && a.Shows(gs)
    ensures |gs| == |a.segments| && a.SectionsBefore(|a.segments|) == |Sections(gs)|
  {
    CountSections(a, gs, |gs|);
    hide Sections;
    assert gs[..|gs|] == gs;
  }

  lemma {:induction false} SameShown(a: Builder.Archive<Ref>, gs: seq<SegmentView<Ref>>, hs: seq<SegmentView<Ref>>)
    requires a.Valid() && a.Shows(gs) && a.Shows(hs)
    ensures gs == hs
  {
  }

  lemma {:induction false} StartIs(a: Builder.Archive<Ref>, offset: nat)
    ensures a.Start(offset) == Location(offset + a.headerSize + a.commandsSize, a.vmaddr)
  {
  }

  /** The new archive: the segments and sections of the old one with the new blobs, as objects of their own. */
  method NewArchive(gs: seq<SegmentView<Ref>>, headerSize: nat, commandsSize: nat, vmaddr: nat)
    returns (a: Builder.Archive<Ref>)
    ensures fresh(a) && fresh(a.repr) && a.Valid() && a.Shows(gs) && a.word == WORD
    ensures a.headerSize == headerSize && a.commandsSize == commandsSize && a.vmaddr == vmaddr
  {
    var segments := Builder.CopySegments(WORD, gs);
    a := new Builder.Archive(WORD, segments, headerSize, commandsSize, vmaddr);
  }

  /**
   The passes one after the other: placeholders, translation with its resolver, and the Build of the new archive. They
   succeed exactly when `Translates64` says so, and what they return is a translation the theorems of this module
   speak of.
   */
  method TranslateAndLayOut(
    src: seq<Source>, env: ParseEnv, gs: seq<SegmentView<Ref>>, headerSize: nat, commandsSize: nat, vmaddr: nat)
    returns (r: Result<(seq<Part>, seq<SegmentView<Ref>>)>)
    requires Ascending(env.placeholders) && AllRead(src) && Shaped(gs) && |Sections(gs)| == |src|
    requires vmaddr % PAGE_SIZE == 0
    modifies env
    ensures r.Ok? <==> Translates64(src, old(env.placeholders))
    ensures r.Ok? ==>
      Laid(src, old(env.placeholders), gs, Location(headerSize + commandsSize, vmaddr), r.value.0, r.value.1)
  {
    hide *;
    ghost var ps, loc := env.placeholders, Location(headerSize + commandsSize, vmaddr);
    var placed := PlacePlaceholders(src, env);
    if placed.Err? {
      NotPlaceable(src, ps);
      return Err(placed.reason);
    }
    var parts := placed.value;
    Translates64Is(src, ps, parts);
    PlacedLength(src, ps, parts);
    var made := TransformArchive(parts);
    if made.Err? {
      return Err(made.reason);
    }
    MadeIs(parts, made.value);
    FilledBuildable(gs, made.value, loc);
    FilledSections(gs, made.value);
    var archive := NewArchive(Filled(gs, made.value), headerSize, commandsSize, vmaddr);
    AllShown(archive, Filled(gs, made.value));
    StartIs(archive, 0);
    ghost var after, end;
    var total;
    total, after, end := archive.Build(0, Filled(gs, made.value));
    if total.None? {
      return Err(if |src| > Builder.MAX_SECT then TooManySections else Unsupported);
    }
    var built := archive.Views();
    SameShown(archive, built, after);
    LaidFrom(src, ps, gs, loc, parts, built);
    return Ok((parts, built));
  }

  lemma {:induction false} NotPlaceable(src: seq<Source>, ps: seq<nat>)
    requires !forall p :: p in ps ==> Placeable(src, p)
    ensures !Translates64(src, ps)
  {
    hide Placeable, Placed, AllBuildable;
  }

  lemma {:induction false} PlacedLength(src: seq<Source>, ps: seq<nat>, parts: seq<Part>)
    requires Placed(src, ps, parts)
    ensures |parts| == |src|
  {
    hide Merged, TakesEnd;
  }

  lemma {:induction false} MadeIs(parts: seq<Part>, made: seq<Content>)
    requires Translatable(parts) && |made| == |parts|
    requires forall i :: 0 <= i < |parts| ==>
      made[i] == LinkAll(ExpandAll(parts[i].content, parts[i].stubs).value, Cells(parts))
    ensures made == Contents(parts)
  {
    hide ExpandAll, LinkAll, Cells;
  }

  lemma {:induction false} LaidFrom(
    src: seq<Source>, ps: seq<nat>, gs: seq<SegmentView<Ref>>, loc: Location, parts: seq<Part>,
    built: seq<SegmentView<Ref>>)
    requires AllRead(src) && Placed(src, ps, parts) && Translatable(parts) && |parts| == |src| <= Builder.MAX_SECT
    requires Shaped(gs) && |Sections(gs)| == |src| && loc.vmaddr % PAGE_SIZE == 0
    requires BuildSegments(Filled(gs, Contents(parts)), WORD, loc).Some?
    requires built == BuildSegments(Filled(gs, Contents(parts)), WORD, loc).value.0
    ensures Laid(src, ps, gs, loc, parts, built)
  {
    hide AllRead, Placed, Translatable, Shaped, Sections, BuildSegments, Filled, Contents;
  }

  // ----- writing the file -----

  predicate HasBytes(b: Blob<Ref>)
  {
    match b.kind
    case Inst(insn) => insn.buf != []
    case Stub(push, jmp, _, _, _) => push.buf != [] && jmp.buf != []
    case _ => true
  }

  /** The decoder never yields an instruction of no bytes, inside stub helpers too. */
  predicate StubsDecoded(src: seq<Source>)
  {
    forall i, u :: 0 <= i < |src| && 0 <= u < |src[i].content| && src[i].content[u].kind.Stub? ==>
      HasBytes(src[i].content[u])
  }

  predicate KindHasBytes(kind: Kind<Ref>)
  {
    match kind
    case Inst(insn) => insn.buf != []
    case Stub(push, jmp, _, _, _) => push.buf != [] && jmp.buf != []
    case _ => true
  }

  predicate AllHaveBytes(kinds: seq<Kind<Ref>>)
  {
    forall k :: 0 <= k < |kinds| ==> KindHasBytes(kinds[k])
  }

  lemma {:induction false} CodesNonEmpty(r: nat, imm: uint32)
    requires r < 16
    ensures LeaR11Rip() != [] && PushR11() != [] && JmpMemRip() != [] && PushAx() != [] && LeaRspRsp4() != []
    ensures JmpRel32() != [] && MovMemRspR32(r) != [] && MovMemRspImm(imm) != [] && MovR32MemRsp(r) != []
    ensures JmpR64(r) != [] && (r < 8 ==> LeaR32Rip(r) != [] && IncR32(r) != [] && DecR32(r) != [])
  {
    hide Le;
  }

  lemma {:induction false} StackHasBytes(r: nat, imm: uint32)
    requires r < 16
    ensures AllHaveBytes(PushR32(r)) && AllHaveBytes(PushImm(imm)) && AllHaveBytes(PopR32(r))
    ensures AllHaveBytes(PopR32(r) + [Inst(Plainly(JmpR64(r)))])
  {
    CodesNonEmpty(r, imm);
    hide PushAx, MovMemRspR32, MovMemRspImm, MovR32MemRsp, LeaRspRsp4, JmpR64;
  }

  lemma {:induction false} CallHasBytes(from: Ref, jmp: Insn<Ref>)
    requires jmp.buf != []
    ensures AllHaveBytes(CallOp(from, jmp))
  {
    CodesNonEmpty(11, 0);
    StackHasBytes(11, 0);
    hide PushR32, LeaR11Rip;
  }

  lemma {:induction false} RebasedHaveBytes(from: Ref, insn: Insn<Ref>, stubs: bool)
    requires insn.imm.Some? && insn.imm.value.pointee.Some? && TransformInsn(from, insn, stubs).Ok?
    ensures AllHaveBytes(TransformInsn(from, insn, stubs).value)
  {
    CodesNonEmpty(if insn.reg0 < 8 then insn.reg0 else 0, 0);
    hide LeaR11Rip, PushR11, JmpMemRip, LeaR32Rip;
  }

  lemma {:induction false} PlainsHaveBytes(from: Ref, insn: Insn<Ref>, stubs: bool)
    requires insn.buf != [] && NotRebased(insn) && TransformInsn(from, insn, stubs).Ok?
    ensures AllHaveBytes(TransformInsn(from, insn, stubs).value)
  {
    var r := if insn.reg0 < 16 then insn.reg0 else 0;
    CodesNonEmpty(r, 0);
    CodesNonEmpty(11, 0);
    StackHasBytes(r, insn.operand);
    StackHasBytes(11, 0);
    CallHasBytes(from, Plainly(JmpR64(r)));
    CallHasBytes(from, Plainly(JmpRel32()).(iform := JmpRelZ, memdisp := insn.memdisp, brdisp := insn.brdisp));
    match insn.iform
    case CallMem =>
      var buf := CallMemToJmp(insn.buf).value;
      CallHasBytes(from, Plainly(buf).(dispPos := insn.dispPos, memdisp := insn.memdisp, brdisp := insn.brdisp));
    case _ =>
      hide CallOp, PushR32, PushImm, PopR32, JmpR64, JmpRel32, IncR32, DecR32, CallMemToJmp;
  }

  lemma {:induction false} InsnKindsHaveBytes(from: Ref, insn: Insn<Ref>, stubs: bool, k: nat)
    requires insn.buf != [] && TransformInsn(from, insn, stubs).Ok?
    requires k < |TransformInsn(from, insn, stubs).value|
    ensures KindHasBytes(TransformInsn(from, insn, stubs).value[k])
  {
    if insn.imm.Some? && insn.imm.value.pointee.Some? {
      RebasedHaveBytes(from, insn, stubs);
    } else {
      PlainsHaveBytes(from, insn, stubs);
    }
    hide TransformInsn, KindHasBytes;
  }

  lemma {:induction false} KindsHaveBytes(b: Blob<Ref>, stubs: bool, k: nat)
    requires HasBytes(b) && Kinds(b, stubs).Ok? && k < |Kinds(b, stubs).value|
    ensures KindHasBytes(Kinds(b, stubs).value[k])
  {
    match b.kind
    case Inst(insn) =>
      InsnKindsHaveBytes(b.id, insn, stubs, k);
      hide TransformInsn;
    case _ =>
      hide TransformInsn;
  }

  lemma {:induction false} ExpandHasBytes(b: Blob<Ref>, stubs: bool, k: nat)
    requires HasBytes(b) && Expand(b, stubs).Ok? && k < |Expand(b, stubs).value|
    ensures HasBytes(Expand(b, stubs).value[k])
  {
    KindsHaveBytes(b, stubs, k);
    hide Kinds;
  }

  lemma {:induction false} LinkHasBytes(b: Blob<Ref>, cells: map<Slot, Ref>)
    requires HasBytes(b)
    ensures HasBytes(LinkBlob(b, cells))
  {
    hide LinkRef;
  }

  lemma {:induction false} BuildHasBytes(b: Blob<Ref>, loc: Location)
    requires HasBytes(b) && BuildBlob(b, WORD, loc).Some?
    ensures HasBytes(BuildBlob(b, WORD, loc).value.0)
  {
  }

  lemma {:induction false} PartHasBytes(src: seq<Source>, ps: seq<nat>, parts: seq<Part>, i: nat, x: nat)
    requires AllRead(src) && StubsDecoded(src) && Placed(src, ps, parts) && i < |parts| && x < |parts[i].content|
    ensures HasBytes(parts[i].content[x])
  {
    hide TakesEnd;
    var s := src[i];
    assert WellRead(s, 4);
    if x < |Interleave(s.content, ps)| {
      var y := InterleaveOrigin(s.content, ps, x);
      TilesBounds(s.content, 4, s.addr, s.size, y);
    }
  }

  lemma {:induction false} BuiltHasBytes(
    src: seq<Source>, ps: seq<nat>, gs: seq<SegmentView<Ref>>, loc: Location, parts: seq<Part>,
    built: seq<SegmentView<Ref>>, i: nat, r: nat)
    requires Laid(src, ps, gs, loc, parts, built) && StubsDecoded(src)
    requires i < |Sections(built)| && r < |Sections(built)[i].content|
    ensures HasBytes(Sections(built)[i].content[r])
  {
    hide *;
    var ss := Sections(built);
    LaidBuilt(src, ps, gs, loc, parts, built);
    LaidParts(src, ps, gs, loc, parts, built, i);
    PlacedAt(NewContent(parts, i), WORD, BaseOf(ss[i]), r);
    NewContentIs(parts, i);
    var x, k := PosInverse(parts[i].content, parts[i].stubs, r);
    PartHasBytes(src, ps, parts, i, x);
    ExpandHasBytes(parts[i].content[x], parts[i].stubs, k);
    LinkHasBytes(ExpandAll(parts[i].content, parts[i].stubs).value[r], Cells(parts));
    BuildHasBytes(NewContent(parts, i)[r], ss[i].content[r].Start());
  }

  lemma {:induction false} LaidParts(
    src: seq<Source>, ps: seq<nat>, gs: seq<SegmentView<Ref>>, loc: Location, parts: seq<Part>,
    built: seq<SegmentView<Ref>>, i: nat)
    requires Laid(src, ps, gs, loc, parts, built) && i < |parts|
    ensures AllRead(src) && Placed(src, ps, parts)
    ensures ExpandAll(parts[i].content, parts[i].stubs).Ok?
  {
    hide AllRead, Placed, Sections, Filled, BuildSegments, Shaped, ExpandAll;
  }

  lemma {:induction false} NewContentIs(parts: seq<Part>, i: nat)
    requires Translatable(parts) && i < |parts|
    ensures ExpandAll(parts[i].content, parts[i].stubs).Ok?
    ensures
      var bs := ExpandAll(parts[i].content, parts[i].stubs).value;
      |NewContent(parts, i)| == |bs| &&
      forall r :: 0 <= r < |bs| ==> NewContent(parts, i)[r] == LinkBlob(bs[r], Cells(parts))
  {
    hide ExpandAll, LinkBlob, Cells;
  }

  lemma {:induction false} SegmentsHas<R>(cs: seq<Command<R>>, i: nat)
    requires i < |cs| && cs[i].Load?
    ensures cs[i].g in Segments(cs)
  {
    if i == 0 {
    } else {
      SegmentsHas(cs[1..], i - 1);
    }
  }

  /** The writing loops never meet an instruction without bytes. */
  lemma {:induction false} LaidEmittable(
    src: seq<Source>, ps: seq<nat>, gs: seq<SegmentView<Ref>>, loc: Location, parts: seq<Part>,
    built: seq<SegmentView<Ref>>, cs: seq<Command<Ref>>)
    requires Laid(src, ps, gs, loc, parts, built) && StubsDecoded(src) && AllValid(cs) && Segments(cs) == built
    ensures Emittable(cs)
  {
    hide Laid, StubsDecoded, AllValid, Segments, Sections;
    forall c, m, r | 0 <= c < |cs| && cs[c].Load? && 0 <= m < |cs[c].g.sections| && 0 <= r < |cs[c].g.sections[m].content|
      ensures HasBytes(cs[c].g.sections[m].content[r])
    {
      SegmentsHas(cs, c);
      var k :| 0 <= k < |built| && built[k] == cs[c].g;
      var i := SectionAt(built, k, m);
      BuiltHasBytes(src, ps, gs, loc, parts, built, i, r);
    }
    forall c | 0 <= c < |cs| && cs[c].Load? ensures NonEmptyCodes(cs[c].g.sections) {
      forall m | 0 <= m < |cs[c].g.sections| ensures NonEmptyCode(cs[c].g.sections[m].content) {
        SectionNonEmpty(cs[c].g.sections[m].content);
      }
    }
  }

  lemma {:induction false} SectionNonEmpty(content: Content)
    requires forall r :: 0 <= r < |content| ==> HasBytes(content[r])
    ensures NonEmptyCode(content)
  {
  }

  /** Archive::Emit over an empty file: the loaded result is what the theorems of this module speak of. */
  method WriteTranslation(
    src: seq<Source>, ghost ps: seq<nat>, ghost gs: seq<SegmentView<Ref>>, loc: Location, ghost parts: seq<Part>,
    built: seq<SegmentView<Ref>>, header: bytes, cs: seq<Command<Ref>>, index: map<nat, uint32>, img: Image)
    returns (ok: bool)
    requires Laid(src, ps, gs, loc, parts, built) && StubsDecoded(src) && img.data == []
    requires AllValid(cs) && Segments(cs) == built && TablesIn(cs, built) && |header| + CommandsSize(cs) <= loc.offset
    modifies img
    ensures ok <==> forall i, r :: 0 <= i < |Sections(built)| && 0 <= r < |Sections(built)[i].content| ==>
      BlobBytes(Sections(built)[i].content[r], WORD, AtOf(Sections(built)), index).Some?
    ensures ok ==> WrittenOut(header, cs, built, loc, index, img.data)
  {
    hide *;
    var at := AtOf(Sections(built));
    LaidEmittable(src, ps, gs, loc, parts, built, cs);
    LaidIsLaidOut(src, ps, gs, loc, parts, built);
    FileWrittenIff(header, cs, built, WORD, at, index, [], loc.offset);
    AllSayable(src, ps, gs, loc, parts, built, index);
    WordIs();
    ok := EmitFile(header, cs, WORD, at, index, img);
    if ok {
      WrittenOutFrom(header, cs, built, loc, index, img.data);
    }
  }

  lemma {:induction false} WordIs()
    ensures WORD == 8
  {
  }

  lemma {:induction false} WrittenOutFrom(
    header: bytes, cs: seq<Command<Ref>>, built: seq<SegmentView<Ref>>, loc: Location, index: map<nat, uint32>, img: bytes)
    requires AllValid(cs) && Segments(cs) == built && TablesIn(cs, built) && |header| + CommandsSize(cs) <= loc.offset
    requires DoAll(ArchiveSteps(header, cs), WORD, AtOf(Sections(built)), index, []) == Some(img)
    ensures WrittenOut(header, cs, built, loc, index, img)
  {
  }

  /** Section by section, or blob by blob. */
  lemma {:induction false} AllSayable(
    src: seq<Source>, ps: seq<nat>, gs: seq<SegmentView<Ref>>, loc: Location, parts: seq<Part>,
    built: seq<SegmentView<Ref>>, index: map<nat, uint32>)
    requires Laid(src, ps, gs, loc, parts, built)
    ensures
      var ss, at := Sections(built), AtOf(Sections(built));
      (forall k, m :: 0 <= k < |built| && 0 <= m < |built[k].sections| ==>
         Sayable(Body(built[k].sections[m]), WORD, at, index)) <==>
      forall i, r :: 0 <= i < |ss| && 0 <= r < |ss[i].content| ==> BlobBytes(ss[i].content[r], WORD, at, index).Some?
  {
    hide Laid, Sections, AtOf, BlobBytes, Emitted, Blob.Start;
    var ss, at := Sections(built), AtOf(Sections(built));
    if forall k, m :: 0 <= k < |built| && 0 <= m < |built[k].sections| ==>
         Sayable(Body(built[k].sections[m]), WORD, at, index)
    {
      forall i, r | 0 <= i < |ss| && 0 <= r < |ss[i].content| ensures BlobBytes(ss[i].content[r], WORD, at, index).Some? {
        var k, m := SectionOf(built, i);
        LaidActive(src, ps, gs, loc, parts, built, i);
        assert Sayable(Body(built[k].sections[m]), WORD, at, index);
      }
    }
    if forall i, r :: 0 <= i < |ss| && 0 <= r < |ss[i].content| ==> BlobBytes(ss[i].content[r], WORD, at, index).Some? {
      forall k, m | 0 <= k < |built| && 0 <= m < |built[k].sections|
        ensures Sayable(Body(built[k].sections[m]), WORD, at, index)
      {
        var i := SectionAt(built, k, m);
      }
    }
  }
}
