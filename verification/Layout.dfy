/**
 What the layout pass computes (src/core/build.cc, src/core/loc.cc, src/core/section.cc, src/core/segment.cc,
 src/core/archive.cc): a file offset and a vmaddr move together over every blob. These functions are what the
 `Build` methods of module Builder are proved against; the lemmas are what the rest of the program relies on.
 */
module Layout {
  import opened Wrappers
  import opened Arith
  import opened Blobs

  const RELOCATION_SIZE: nat := 8

  function Align(loc: Location, pow2: nat): Location
  {
    Location(AlignUp(loc.offset, Pow2(pow2)), AlignUp(loc.vmaddr, Pow2(pow2)))
  }

  function PageAlign(loc: Location): Location
  {
    Location(AlignUp(loc.offset, PAGE_SIZE), AlignUp(loc.vmaddr, PAGE_SIZE))
  }

  /** Bytes allocated for the first blobs of a section. */
  function Total<R>(content: seq<Blob<R>>, word: nat): nat
  {
    if content == [] then 0 else content[0].BuiltSize(word) + Total(content[1..], word)
  }

  /** Puts elements already built in front of those still to come. */
  function Prepend<T>(done: seq<T>, r: Option<(seq<T>, Location)>): Option<(seq<T>, Location)>
  {
    match r
    case None => None
    case Some((rest, end)) => Some((done + rest, end))
  }

  lemma {:induction false} PrependSnoc<T>(done: seq<T>, x: T, r: Option<(seq<T>, Location)>)
    ensures Prepend(done, Prepend([x], r)) == Prepend(done + [x], r)
  {
    if r.Some? {
      assert done + ([x] + r.value.0) == done + [x] + r.value.0;
    }
  }

  lemma {:induction false} PrependNil<T>(done: seq<T>, r: Option<(seq<T>, Location)>)
    ensures Prepend([], r) == r
    ensures r.Some? && r.value.0 == [] ==> Prepend(done, r) == Some((done, r.value.1))
    ensures Prepend<T>(done, None) == None
  {
    if r.Some? {
      assert [] + r.value.0 == r.value.0 && done + [] == done;
    }
  }

  /** Builds every blob of a section in list order. */
  function PlaceAll<R>(content: seq<Blob<R>>, word: nat, loc: Location)
    : (r: Option<(seq<Blob<R>>, Location)>)
    ensures r.Some? ==> |r.value.0| == |content| && r.value.1 == loc.Plus(Total(r.value.0, word))
    decreases |content|
  {
    if content == [] then Some(([], loc))
    else
      match BuildBlob(content[0], word, loc)
      case None => None
      case Some((b, next)) =>
        var rest := PlaceAll(content[1..], word, next);
        assert rest.Some? ==> ([b] + rest.value.0)[1..] == rest.value.0;
        Prepend([b], rest)
  }

  datatype SectionView<R> = SectionView(
    align: nat, offset: nat, addr: nat, size: nat, nreloc: nat, reloff: nat, content: seq<Blob<R>>)

  function BuildSection<R>(s: SectionView<R>, word: nat, loc: Location)
    : (r: Option<(SectionView<R>, Location)>)
    ensures r.Some? ==> loc.offset <= r.value.1.offset && loc.vmaddr <= r.value.1.vmaddr
  {
    var start := Align(loc, s.align);
    match PlaceAll(s.content, word, start)
    case None => None
    case Some((content, end)) =>
      Some((s.(offset := start.offset, addr := start.vmaddr, size := end.offset - start.offset,
               reloff := end.offset, content := content),
            end.Plus(s.nreloc * RELOCATION_SIZE)))
  }

  function BuildSections<R>(ss: seq<SectionView<R>>, word: nat, loc: Location)
    : (r: Option<(seq<SectionView<R>>, Location)>)
    ensures r.Some? ==> |r.value.0| == |ss| && loc.offset <= r.value.1.offset && loc.vmaddr <= r.value.1.vmaddr
    decreases |ss|
  {
    if ss == [] then Some(([], loc))
    else
      match BuildSection(ss[0], word, loc)
      case None => None
      case Some((s, next)) =>
        Prepend([s], BuildSections(ss[1..], word, next))
  }

  lemma {:induction false} BuildSectionsStep<R>(ss: seq<SectionView<R>>, word: nat, loc: Location)
    ensures ss == [] ==> BuildSections(ss, word, loc) == Some(([], loc))
    ensures ss != [] && BuildSection(ss[0], word, loc).None? ==> BuildSections(ss, word, loc) == None
    ensures ss != [] && BuildSection(ss[0], word, loc).Some? ==>
      var (s, next) := BuildSection(ss[0], word, loc).value;
      BuildSections(ss, word, loc) == Prepend([s], BuildSections(ss[1..], word, next))
  {
    hide BuildSection, Prepend;
  }

  datatype SegmentKind = PageZero | Text | Linkedit | Other

  datatype SegmentView<R> = SegmentView(
    kind: SegmentKind, fileoff: nat, vmaddr: nat, filesize: nat, vmsize: nat,
    sections: seq<SectionView<R>>, linkedits: seq<nat>)
  {
    /** Segments that hold sections and are mapped from the file. */
    predicate Regular() { kind.Text? || kind.Other? }
  }

  function Sum(sizes: seq<nat>): nat
  {
    if sizes == [] then 0 else sizes[0] + Sum(sizes[1..])
  }

  /** Where the contents of a regular segment start, and the segment's own file offset and vmaddr. */
  function SegmentStart(kind: SegmentKind, loc: Location): (Location, Location)
  {
    if kind.Text? then
      var v := AlignUp(loc.vmaddr, PAGE_SIZE);
      (Location(loc.offset, v + loc.offset % PAGE_SIZE), Location(AlignDown(loc.offset, PAGE_SIZE), v))
    else
      (PageAlign(loc), PageAlign(loc))
  }

  /** The sizes recorded once the sections of a segment end at `last`. */
  function FinishSegment<R>(g: SegmentView<R>, base: Location, ss: seq<SectionView<R>>, last: Location)
    : (SegmentView<R>, Location)
    requires base.offset <= last.offset && base.vmaddr <= last.vmaddr
  {
    var end := PageAlign(last);
    (g.(fileoff := base.offset, vmaddr := base.vmaddr, filesize := end.offset - base.offset,
        vmsize := AlignUp(end.vmaddr - base.vmaddr, PAGE_SIZE), sections := ss), end)
  }

  /** Segment::Build and Segment_LINKEDIT::Build. `None` is a failed assertion or an `abort` below. */
  function BuildSegment<R>(g: SegmentView<R>, word: nat, loc: Location)
    : (r: Option<(SegmentView<R>, Location)>)
    ensures r.Some? ==> loc.offset <= r.value.1.offset && loc.vmaddr <= r.value.1.vmaddr
  {
    if g.kind.Linkedit? then
      var start := PageAlign(loc);
      var size := Sum(g.linkedits);
      Some((g.(fileoff := start.offset, vmaddr := start.vmaddr, filesize := size,
               vmsize := AlignUp(size, PAGE_SIZE)),
            Location(start.offset + size, AlignUp(start.vmaddr, PAGE_SIZE))))
    else if loc.vmaddr % PAGE_SIZE != 0 then None
    else if g.kind.PageZero? then
      Some((g.(fileoff := 0, vmaddr := 0, filesize := 0, vmsize := loc.vmaddr), loc))
    else
      var (start, base) := SegmentStart(g.kind, loc);
      match BuildSections(g.sections, word, start)
      case None => None
      case Some((ss, last)) => Some(FinishSegment(g, base, ss, last))
  }

  function BuildSegments<R>(gs: seq<SegmentView<R>>, word: nat, loc: Location)
    : (r: Option<(seq<SegmentView<R>>, Location)>)
    ensures r.Some? ==> |r.value.0| == |gs| && loc.offset <= r.value.1.offset
    decreases |gs|
  {
    if gs == [] then Some(([], loc))
    else
      match BuildSegment(gs[0], word, loc)
      case None => None
      case Some((g, next)) =>
        Prepend([g], BuildSegments(gs[1..], word, next))
  }

  lemma {:induction false} BuildSegmentsStep<R>(gs: seq<SegmentView<R>>, word: nat, loc: Location)
    ensures gs == [] ==> BuildSegments(gs, word, loc) == Some(([], loc))
    ensures gs != [] && BuildSegment(gs[0], word, loc).None? ==> BuildSegments(gs, word, loc) == None
    ensures gs != [] && BuildSegment(gs[0], word, loc).Some? ==>
      var (g, next) := BuildSegment(gs[0], word, loc).value;
      BuildSegments(gs, word, loc) == Prepend([g], BuildSegments(gs[1..], word, next))
  {
    hide BuildSegment, Prepend;
  }

  // ----- blobs tile their section -----

  lemma {:induction false} TotalSplit<R>(c: seq<Blob<R>>, word: nat, j: nat)
    requires j < |c|
    ensures Total(c[..j + 1], word) == Total(c[..j], word) + c[j].BuiltSize(word)
  {
    if j > 0 {
      TotalSplit(c[1..], word, j - 1);
      assert c[..j + 1][1..] == c[1..][..j] && c[..j][1..] == c[1..][..j - 1];
    } else {
      assert c[..1][1..] == [] && c[..0] == [];
    }
  }

  lemma {:induction false} TotalMonotone<R>(c: seq<Blob<R>>, word: nat, j: nat)
    requires j <= |c|
    ensures Total(c[..j], word) <= Total(c, word)
    decreases |c| - j
  {
    if j < |c| {
      TotalSplit(c, word, j);
      TotalMonotone(c, word, j + 1);
    } else {
      assert c[..j] == c;
    }
  }

  lemma {:induction false} PlaceStep<R>(content: seq<Blob<R>>, word: nat, loc: Location)
    requires PlaceAll(content, word, loc).Some? && content != []
    ensures BuildBlob(content[0], word, loc).Some?
    ensures
      var c := PlaceAll(content, word, loc).value.0;
      var (b, next) := BuildBlob(content[0], word, loc).value;
      && |c| == |content| && c[0] == b && b.Start() == loc && next == loc.Plus(b.BuiltSize(word))
      && PlaceAll(content[1..], word, next).Some? && c[1..] == PlaceAll(content[1..], word, next).value.0
  {
    hide BuildBlob, Total, Blob.Start, Blob.BuiltSize;
  }

  lemma {:induction false} TotalCons<R>(c: seq<Blob<R>>, word: nat, j: nat)
    requires 0 < j <= |c|
    ensures Total(c[..j], word) == c[0].BuiltSize(word) + Total(c[1..][..j - 1], word)
    ensures Total(c[..0], word) == 0
  {
    hide Blob.BuiltSize;
    assert c[..j][1..] == c[1..][..j - 1];
  }

  lemma {:induction false} PlusPlus(loc: Location, m: nat, n: nat)
    ensures loc.Plus(m).Plus(n) == loc.Plus(m + n) && loc.Plus(0) == loc
  {
  }

  /** Blob `j` is built at the cursor left by the blobs before it: no gap and no overlap. */
  lemma {:induction false} PlacedAt<R>(content: seq<Blob<R>>, word: nat, loc: Location, j: nat)
    requires PlaceAll(content, word, loc).Some? && j < |content|
    ensures var c := PlaceAll(content, word, loc).value.0;
      && c[j].Start() == loc.Plus(Total(c[..j], word))
      && BuildBlob(content[j], word, c[j].Start()) == Some((c[j], loc.Plus(Total(c[..j + 1], word))))
  {
    hide *;
    PlaceStep(content, word, loc);
    var c := PlaceAll(content, word, loc).value.0;
    var (b, next) := BuildBlob(content[0], word, loc).value;
    TotalCons(c, word, j + 1);
    if j == 0 {
      PlusPlus(loc, 0, 0);
      TotalSplit(c, word, 0);
    } else {
      PlacedAt(content[1..], word, next, j - 1);
      TotalCons(c, word, j);
      PlusPlus(loc, b.BuiltSize(word), Total(c[1..][..j - 1], word));
      PlusPlus(loc, b.BuiltSize(word), Total(c[1..][..j], word));
    }
  }

  /** The pass stops exactly at a branch whose displacement width it cannot handle. */
  lemma {:induction false} PlaceAllIff<R>(content: seq<Blob<R>>, word: nat, loc: Location)
    ensures PlaceAll(content, word, loc).Some? <==> forall j :: 0 <= j < |content| ==> Buildable(content[j])
  {
    if content == [] {
    } else {
      match BuildBlob(content[0], word, loc)
      case None =>
      case Some((b, next)) =>
        PlaceAllIff(content[1..], word, next);
        assert content == [content[0]] + content[1..];
    }
  }

  // ----- the two cursors stay in lockstep -----

  /** `l` is as far into the file as into memory, counted from `base`. */
  predicate Locked(base: Location, l: Location)
  {
    base.offset <= l.offset && l.offset - base.offset == l.vmaddr - base.vmaddr
  }

  predicate ImmLocked<R>(base: Location, insn: Insn<R>)
  {
    insn.imm.Some? ==> insn.imm.value.offset - base.offset == insn.imm.value.vmaddr - base.vmaddr
  }

  predicate BlobLocked<R>(base: Location, b: Blob<R>)
  {
    && Locked(base, b.Start())
    && match b.kind
       case Inst(insn) => ImmLocked(base, insn)
       case Stub(push, jmp, _, jmpLoc, _) => ImmLocked(base, push) && ImmLocked(base, jmp) && Locked(base, jmpLoc)
       case _ => true
  }

  predicate PageAligned(l: Location)
  {
    l.offset % PAGE_SIZE == 0 && l.vmaddr % PAGE_SIZE == 0
  }

  /** Aligning both cursors keeps them in lockstep exactly when they agree modulo the alignment. */
  lemma {:induction false} AlignLockedIff(base: Location, loc: Location, pow2: nat)
    requires Locked(base, loc)
    ensures Locked(base, Align(loc, pow2)) <==> loc.offset % Pow2(pow2) == loc.vmaddr % Pow2(pow2)
  {
    AlignUpTogether(loc.offset, loc.vmaddr, Pow2(pow2));
  }

  lemma {:induction false} AlignLocked(base: Location, loc: Location, pow2: nat)
    requires Locked(base, loc) && PageAligned(base) && pow2 <= 12
    ensures Locked(base, Align(loc, pow2))
    ensures Align(loc, pow2).offset % Pow2(pow2) == 0 && Align(loc, pow2).vmaddr % Pow2(pow2) == 0
  {
    var m, d := Pow2(pow2), loc.offset - base.offset;
    PageMultiple(base.offset, pow2);
    PageMultiple(base.vmaddr, pow2);
    ModOffset(base.offset, d, m);
    ModOffset(base.vmaddr, d, m);
    AlignLockedIff(base, loc, pow2);
    AlignUpIsLeast(loc.offset, m);
    AlignUpIsLeast(loc.vmaddr, m);
  }

  /** Above page granularity the cursors can separate: a section aligned to 8 KiB. */
  lemma {:induction false} AlignAbovePageSeparates()
    ensures var base := Location(0x1000, 0x2000);
      PageAligned(base) && Locked(base, base) && !Locked(base, Align(base, 13))
  {
    Pow2Twelve();
    assert Pow2(13) == 0x2000;
    AlignLockedIff(Location(0x1000, 0x2000), Location(0x1000, 0x2000), 13);
  }

  ghost predicate SectionLocked<R>(base: Location, s: SectionView<R>, word: nat)
  {
    && Locked(base, Location(s.offset, s.addr))
    && s.offset % Pow2(s.align) == 0 && s.addr % Pow2(s.align) == 0
    && forall j :: 0 <= j < |s.content| ==>
         && BlobLocked(base, s.content[j])
         && s.offset <= s.content[j].Start().offset
         && s.content[j].Start().offset + s.content[j].BuiltSize(word) <= s.offset + s.size
  }

  lemma {:induction false} BuildBlobLocked<R>(base: Location, b: Blob<R>, word: nat, loc: Location)
    requires Locked(base, loc) && BuildBlob(b, word, loc).Some?
    ensures BlobLocked(base, BuildBlob(b, word, loc).value.0)
  {
  }

  lemma {:induction false} PlaceAllLocked<R>(base: Location, content: seq<Blob<R>>, word: nat, loc: Location, j: nat)
    requires Locked(base, loc) && PlaceAll(content, word, loc).Some? && j < |content|
    ensures var (c, end) := PlaceAll(content, word, loc).value;
      && BlobLocked(base, c[j])
      && loc.offset <= c[j].Start().offset && c[j].Start().offset + c[j].BuiltSize(word) <= end.offset
  {
    var c := PlaceAll(content, word, loc).value.0;
    PlacedAt(content, word, loc, j);
    TotalSplit(c, word, j);
    TotalMonotone(c, word, j + 1);
    BuildBlobLocked(base, content[j], word, c[j].Start());
  }

  lemma {:induction false} BuildSectionLocked<R>(base: Location, s: SectionView<R>, word: nat, loc: Location)
    requires Locked(base, loc) && PageAligned(base) && s.align <= 12
    requires BuildSection(s, word, loc).Some?
    ensures var (s', next) := BuildSection(s, word, loc).value;
      && SectionLocked(base, s', word) && Locked(base, next)
      && loc.offset <= s'.offset && s'.offset + s'.size <= next.offset
  {
    var start := Align(loc, s.align);
    AlignLocked(base, loc, s.align);
    var (c, end) := PlaceAll(s.content, word, start).value;
    forall j | 0 <= j < |c|
      ensures BlobLocked(base, c[j])
      ensures start.offset <= c[j].Start().offset && c[j].Start().offset + c[j].BuiltSize(word) <= end.offset
    {
      PlaceAllLocked(base, s.content, word, start, j);
    }
  }

  /** Sections follow each other inside `[lo, hi)` of the file, all in lockstep with `base`. */
  ghost predicate SectionsLocked<R>(base: Location, ss: seq<SectionView<R>>, word: nat, lo: nat, hi: nat)
  {
    && (forall i :: 0 <= i < |ss| ==>
          SectionLocked(base, ss[i], word) && lo <= ss[i].offset && ss[i].offset + ss[i].size <= hi)
    && (forall i, k :: 0 <= i < k < |ss| ==> ss[i].offset + ss[i].size <= ss[k].offset)
  }

  lemma {:induction false} BuildSectionsLocked<R>(base: Location, ss: seq<SectionView<R>>, word: nat, loc: Location)
    requires Locked(base, loc) && PageAligned(base)
    requires forall i :: 0 <= i < |ss| ==> ss[i].align <= 12
    requires BuildSections(ss, word, loc).Some?
    ensures var (ss', end) := BuildSections(ss, word, loc).value;
      SectionsLocked(base, ss', word, loc.offset, end.offset) && Locked(base, end)
  {
    if ss == [] {
    } else {
      BuildSectionLocked(base, ss[0], word, loc);
      var (_, next) := BuildSection(ss[0], word, loc).value;
      BuildSectionsLocked(base, ss[1..], word, next);
    }
  }

  /** A built regular segment: page aligned, as long in the file as in memory, and in lockstep throughout. */
  ghost predicate SegmentLocked<R>(g: SegmentView<R>, word: nat)
  {
    var base := Location(g.fileoff, g.vmaddr);
    && PageAligned(base) && g.filesize == g.vmsize && g.filesize % PAGE_SIZE == 0
    && SectionsLocked(base, g.sections, word, g.fileoff, g.fileoff + g.filesize)
  }

  predicate AlignedToPages<R>(g: SegmentView<R>)
  {
    forall i :: 0 <= i < |g.sections| ==> g.sections[i].align <= 12
  }

  lemma {:induction false} SegmentStartLocked(kind: SegmentKind, loc: Location)
    requires kind.Text? || kind.Other?
    ensures var (start, base) := SegmentStart(kind, loc);
      PageAligned(base) && Locked(base, start) && loc.offset <= start.offset && loc.vmaddr <= base.vmaddr
      && AlignDown(loc.offset, PAGE_SIZE) <= base.offset
  {
    AlignUpIsLeast(loc.vmaddr, PAGE_SIZE);
    AlignUpIsLeast(loc.offset, PAGE_SIZE);
    AlignDownBounds(loc.offset, PAGE_SIZE);
  }

  /** Rounding the end of a locked segment up to a page makes both of its sizes the same whole number of pages. */
  lemma {:induction false} FinishLocked<R>(g: SegmentView<R>, base: Location, ss: seq<SectionView<R>>, last: Location)
    requires PageAligned(base) && Locked(base, last)
    ensures var (g', end) := FinishSegment(g, base, ss, last);
      && g'.filesize == g'.vmsize && g'.filesize % PAGE_SIZE == 0 && PageAligned(end)
      && last.offset <= end.offset == g'.fileoff + g'.filesize && end.vmaddr == g'.vmaddr + g'.vmsize
  {
    hide AlignUp, AlignDown;
    AlignLocked(base, last, 12);
    Pow2Twelve();
    var end := PageAlign(last);
    var q := SameModDiff(end.offset, base.offset, PAGE_SIZE);
    MulIsMultiple(q, PAGE_SIZE);
    AlignUpIsLeast(end.vmaddr - base.vmaddr, PAGE_SIZE);
  }

  /** Segment::Build keeps lockstep and hands a page-aligned cursor to the next segment. */
  lemma {:induction false} BuildSegmentLocked<R>(g: SegmentView<R>, word: nat, loc: Location)
    requires g.Regular() && AlignedToPages(g)
    requires BuildSegment(g, word, loc).Some?
    ensures var (g', end) := BuildSegment(g, word, loc).value;
      && SegmentLocked(g', word) && PageAligned(end)
      && end == Location(g'.fileoff + g'.filesize, g'.vmaddr + g'.vmsize)
      && AlignDown(loc.offset, PAGE_SIZE) <= g'.fileoff && loc.vmaddr <= g'.vmaddr
      && forall i :: 0 <= i < |g'.sections| ==> loc.offset <= g'.sections[i].offset
  {
    hide AlignUp, AlignDown, FinishSegment;
    var (start, base) := SegmentStart(g.kind, loc);
    SegmentStartLocked(g.kind, loc);
    BuildSectionsLocked(base, g.sections, word, start);
    var (ss, last) := BuildSections(g.sections, word, start).value;
    FinishLocked(g, base, ss, last);
    FinishKeeps(g, base, ss, last);
  }

  lemma {:induction false} FinishKeeps<R>(g: SegmentView<R>, base: Location, ss: seq<SectionView<R>>, last: Location)
    requires base.offset <= last.offset && base.vmaddr <= last.vmaddr
    ensures var g' := FinishSegment(g, base, ss, last).0;
      g'.fileoff == base.offset && g'.vmaddr == base.vmaddr && g'.sections == ss && g'.kind == g.kind
  {
  }

  // ----- the whole archive -----

  /** Everything a segment built from cursor `loc` or later may not reach below. */
  ghost predicate NotBelow<R>(g: SegmentView<R>, loc: Location)
  {
    && (g.Regular() ==>
          && AlignDown(loc.offset, PAGE_SIZE) <= g.fileoff && loc.vmaddr <= g.vmaddr
          && forall i :: 0 <= i < |g.sections| ==> loc.offset <= g.sections[i].offset)
    && (g.kind.Linkedit? ==> loc.offset <= g.fileoff)
    && (g.kind.PageZero? ==> g.filesize == 0)
  }

  /** `h` comes after `g`: it lies above it in the file and in memory. */
  ghost predicate Follows<R>(g: SegmentView<R>, h: SegmentView<R>)
  {
    && (g.Regular() && h.Regular() ==>
          g.fileoff + g.filesize <= h.fileoff && g.vmaddr + g.vmsize <= h.vmaddr)
    && (!g.kind.PageZero? && h.Regular() ==>
          forall i :: 0 <= i < |h.sections| ==> g.fileoff + g.filesize <= h.sections[i].offset)
    && (g.Regular() && h.kind.Linkedit? ==> g.fileoff + g.filesize <= h.fileoff)
  }

  ghost predicate ArchiveLocked<R>(gs: seq<SegmentView<R>>, word: nat)
  {
    && (forall i :: 0 <= i < |gs| && gs[i].Regular() ==> SegmentLocked(gs[i], word))
    && (forall i :: 0 <= i < |gs| && gs[i].kind.PageZero? ==> gs[i].filesize == 0)
    && (forall i, k :: 0 <= i < k < |gs| ==> Follows(gs[i], gs[k]))
  }

  predicate AllAlignedToPages<R>(gs: seq<SegmentView<R>>)
  {
    forall i :: 0 <= i < |gs| ==> AlignedToPages(gs[i])
  }

  lemma {:induction false} AlignDownMonotone(a: nat, c: nat, b: nat)
    requires b > 0 && a <= c
    ensures AlignDown(a, b) <= AlignDown(c, b)
  {
    AlignDownBounds(a, b);
    AlignDownBounds(c, b);
    if AlignDown(c, b) < AlignDown(a, b) {
      NextMultiple(AlignDown(a, b), AlignDown(c, b), b);
    }
  }

  lemma {:induction false} AlignDownFixed(a: nat, b: nat)
    requires b > 0 && a % b == 0
    ensures AlignDown(a, b) == a
  {
    AlignDownBounds(a, b);
  }

  /** One segment: where it lies relative to the cursor before and after it. */
  lemma {:induction false} BuildSegmentBetween<R>(g: SegmentView<R>, word: nat, loc: Location)
    requires AlignedToPages(g) && loc.vmaddr % PAGE_SIZE == 0
    requires BuildSegment(g, word, loc).Some?
    ensures var (g', next) := BuildSegment(g, word, loc).value;
      && g'.kind == g.kind && NotBelow(g', loc)
      && loc.offset <= next.offset && loc.vmaddr <= next.vmaddr && next.vmaddr % PAGE_SIZE == 0
      && (g'.Regular() ==> SegmentLocked(g', word) && PageAligned(next))
      && (g'.Regular() ==> g'.fileoff + g'.filesize == next.offset && g'.vmaddr + g'.vmsize == next.vmaddr)
      && (g'.kind.Linkedit? ==> g'.fileoff + g'.filesize == next.offset)
  {
    AlignUpIsLeast(loc.vmaddr, PAGE_SIZE);
    if g.Regular() {
      BuildSegmentLocked(g, word, loc);
      SegmentStartLocked(g.kind, loc);
    }
  }

  lemma {:induction false} NotBelowWeaken<R>(g: SegmentView<R>, loc: Location, next: Location)
    requires NotBelow(g, next) && loc.offset <= next.offset && loc.vmaddr <= next.vmaddr
    ensures NotBelow(g, loc)
  {
    AlignDownMonotone(loc.offset, next.offset, PAGE_SIZE);
  }

  /**
   Segments occupy page-aligned ranges, pairwise disjoint and in load-command order, in the file and in memory;
   the page-alignment assertion at the start of each segment holds.
   */
  lemma {:induction false} BuildSegmentsLocked<R>(gs: seq<SegmentView<R>>, word: nat, loc: Location)
    requires AllAlignedToPages(gs) && loc.vmaddr % PAGE_SIZE == 0
    requires BuildSegments(gs, word, loc).Some?
    ensures var gs' := BuildSegments(gs, word, loc).value.0;
      ArchiveLocked(gs', word) && forall i :: 0 <= i < |gs'| ==> NotBelow(gs'[i], loc)
  {
    if gs == [] {
    } else {
      BuildSegmentBetween(gs[0], word, loc);
      var (g, next) := BuildSegment(gs[0], word, loc).value;
      BuildSegmentsLocked(gs[1..], word, next);
      var rest := BuildSegments(gs[1..], word, next).value.0;
      if g.Regular() {
        AlignDownFixed(next.offset, PAGE_SIZE);
      }
      forall i | 0 <= i < |rest| ensures NotBelow(rest[i], loc) && Follows(g, rest[i]) {
        NotBelowWeaken(rest[i], loc, next);
      }
    }
  }

  predicate SegmentBuildable<R>(g: SegmentView<R>)
  {
    g.Regular() ==>
      forall i, j :: 0 <= i < |g.sections| && 0 <= j < |g.sections[i].content| ==> Buildable(g.sections[i].content[j])
  }

  lemma {:induction false} BuildSectionsIff<R>(ss: seq<SectionView<R>>, word: nat, loc: Location)
    ensures BuildSections(ss, word, loc).Some? <==>
            forall i, j :: 0 <= i < |ss| && 0 <= j < |ss[i].content| ==> Buildable(ss[i].content[j])
  {
    if ss == [] {
    } else {
      PlaceAllIff(ss[0].content, word, Align(loc, ss[0].align));
      if BuildSection(ss[0], word, loc).Some? {
        BuildSectionsIff(ss[1..], word, BuildSection(ss[0], word, loc).value.1);
        assert forall i :: 0 < i < |ss| ==> ss[i] == ss[1..][i - 1];
        assert forall i :: 0 <= i < |ss[1..]| ==> ss[1..][i] == ss[i + 1];
      }
    }
  }

  /** From a page-aligned start, no assertion of the pass fails: it stops only at a branch it cannot widen. */
  lemma {:induction false} BuildSegmentsIff<R>(gs: seq<SegmentView<R>>, word: nat, loc: Location)
    requires AllAlignedToPages(gs) && loc.vmaddr % PAGE_SIZE == 0
    ensures BuildSegments(gs, word, loc).Some? <==> forall i :: 0 <= i < |gs| ==> SegmentBuildable(gs[i])
  {
    if gs == [] {
    } else {
      BuildSectionsIff(gs[0].sections, word, SegmentStart(gs[0].kind, loc).0);
      if BuildSegment(gs[0], word, loc).Some? {
        BuildSegmentBetween(gs[0], word, loc);
        BuildSegmentsIff(gs[1..], word, BuildSegment(gs[0], word, loc).value.1);
        assert forall i :: 0 < i < |gs| ==> gs[i] == gs[1..][i - 1];
        assert forall i :: 0 <= i < |gs[1..]| ==> gs[1..][i] == gs[i + 1];
      }
    }
  }

  // ----- looking an offset up again -----

  /** Segment::try_offset_to_vmaddr. */
  function SectionLookup<R>(ss: seq<SectionView<R>>, offset: nat): Option<nat>
  {
    if ss == [] then None
    else if ss[0].offset <= offset < ss[0].offset + ss[0].size then Some(offset - ss[0].offset + ss[0].addr)
    else SectionLookup(ss[1..], offset)
  }

  /** Archive::try_offset_to_vmaddr: the first segment that holds the offset decides. */
  function SegmentLookup<R>(gs: seq<SegmentView<R>>, offset: nat): Option<nat>
  {
    if gs == [] then None
    else if gs[0].fileoff <= offset < gs[0].fileoff + gs[0].filesize then SectionLookup(gs[0].sections, offset)
    else SegmentLookup(gs[1..], offset)
  }

  lemma {:induction false} SectionLookupHits<R>(ss: seq<SectionView<R>>, offset: nat, i: nat)
    requires i < |ss| && ss[i].offset <= offset < ss[i].offset + ss[i].size
    requires forall k :: 0 <= k < i ==> ss[k].offset + ss[k].size <= ss[i].offset
    ensures SectionLookup(ss, offset) == Some(offset - ss[i].offset + ss[i].addr)
  {
    if i == 0 {
    } else {
      SectionLookupHits(ss[1..], offset, i - 1);
    }
  }

  lemma {:induction false} SegmentLookupHits<R>(gs: seq<SegmentView<R>>, offset: nat, k: nat)
    requires k < |gs| && gs[k].fileoff <= offset < gs[k].fileoff + gs[k].filesize
    requires forall i :: 0 <= i < k ==> gs[i].filesize == 0 || gs[i].fileoff + gs[i].filesize <= offset
    ensures SegmentLookup(gs, offset) == SectionLookup(gs[k].sections, offset)
  {
    if k == 0 {
    } else {
      SegmentLookupHits(gs[1..], offset, k - 1);
    }
  }

  /** The file offset of any blob that takes bytes leads back to its vmaddr. */
  lemma {:induction false} OffsetFindsVmaddr<R>(gs: seq<SegmentView<R>>, word: nat, k: nat, i: nat, j: nat)
    requires ArchiveLocked(gs, word)
    requires k < |gs| && gs[k].Regular() && i < |gs[k].sections| && j < |gs[k].sections[i].content|
    requires gs[k].sections[i].content[j].BuiltSize(word) > 0
    ensures var start := gs[k].sections[i].content[j].Start();
      SegmentLookup(gs, start.offset) == Some(start.vmaddr)
  {
    var g := gs[k];
    var start := g.sections[i].content[j].Start();
    assert SectionLocked(Location(g.fileoff, g.vmaddr), g.sections[i], word);
    forall h | 0 <= h < k ensures gs[h].filesize == 0 || gs[h].fileoff + gs[h].filesize <= start.offset {
      assert Follows(gs[h], g);
    }
    SegmentLookupHits(gs, start.offset, k);
    SectionLookupHits(g.sections, start.offset, i);
  }
}
