/** The sizes of the segments without sections, and the room behind a section (src/core/segment.cc, src/core/section.cc). */
module SegmentSizes {
  import opened Wrappers
  import opened Arith
  import opened Blobs
  import opened Layout

  /** __PAGEZERO covers exactly the addresses below the start of the archive, and nothing of the file. */
  lemma {:induction false} PageZeroCovers<R>(gs: seq<SegmentView<R>>, word: nat, loc: Location, a: nat)
    requires gs != [] && gs[0].kind.PageZero? && AllAlignedToPages(gs) && loc.vmaddr % PAGE_SIZE == 0
    requires BuildSegments(gs, word, loc).Some?
    ensures
      var gs' := BuildSegments(gs, word, loc).value.0;
      && |gs'| == |gs| && gs'[0].fileoff == gs'[0].filesize == 0
      && (gs'[0].vmaddr <= a < gs'[0].vmaddr + gs'[0].vmsize <==> a < loc.vmaddr)
      && forall k :: 0 < k < |gs'| && gs'[k].Regular() ==> gs'[0].vmaddr + gs'[0].vmsize <= gs'[k].vmaddr
  {
    BuildSegmentsLocked(gs, word, loc);
    BuildSegmentsStep(gs, word, loc);
    hide BuildSegments, BuildSections, SegmentLocked, AllAlignedToPages;
  }

  /** The tables of __LINKEDIT one behind the other: where table `i` starts. */
  function TableAt(sizes: seq<nat>, i: nat): nat
    requires i <= |sizes|
  {
    if i == 0 then 0 else TableAt(sizes, i - 1) + sizes[i - 1]
  }

  lemma {:induction false} SumIsTableEnd(sizes: seq<nat>)
    ensures Sum(sizes) == TableAt(sizes, |sizes|)
  {
    if sizes != [] {
      SumIsTableEnd(sizes[1..]);
      TableShift(sizes, |sizes| - 1);
    }
  }

  lemma {:induction false} TableShift(sizes: seq<nat>, i: nat)
    requires i < |sizes|
    ensures TableAt(sizes, i + 1) == sizes[0] + TableAt(sizes[1..], i)
  {
    if i > 0 {
      TableShift(sizes, i - 1);
    }
  }

  /** __LINKEDIT holds its tables, and its vmsize is the least multiple of a page that does. */
  lemma {:induction false} LinkeditHolds<R>(g: SegmentView<R>, word: nat, loc: Location, m: nat)
    requires g.kind.Linkedit?
    ensures BuildSegment(g, word, loc).Some?
    ensures
      var (g', next) := BuildSegment(g, word, loc).value;
      && g'.filesize == TableAt(g.linkedits, |g.linkedits|) && next.offset == g'.fileoff + g'.filesize
      && g'.fileoff % 0x1000 == g'.vmaddr % 0x1000 == g'.vmsize % 0x1000 == 0
      && loc.offset <= g'.fileoff < loc.offset + 0x1000 && loc.vmaddr <= g'.vmaddr < loc.vmaddr + 0x1000
      && g'.filesize <= g'.vmsize && (m % 0x1000 == 0 && g'.filesize <= m ==> g'.vmsize <= m)
  {
    SumIsTableEnd(g.linkedits);
    AlignUpIsLeast(Sum(g.linkedits), 0x1000);
    AlignUpIsLeast(loc.offset, 0x1000);
    AlignUpIsLeast(loc.vmaddr, 0x1000);
    hide AlignUp, BuildSections;
  }

  /** A section ends with its relocation entries, eight bytes each, directly behind its contents. */
  lemma {:induction false} RelocationsFollow<R>(s: SectionView<R>, word: nat, loc: Location)
    requires BuildSection(s, word, loc).Some?
    ensures
      var (s', next) := BuildSection(s, word, loc).value;
      && s'.reloff == s'.offset + s'.size && s'.size == Total(s'.content, word) && s'.nreloc == s.nreloc
      && next == Location(s'.reloff + 8 * s'.nreloc, s'.addr + s'.size + 8 * s'.nreloc)
  {
    hide Total, Align;
  }

  /** The assertion at the start of every segment but __LINKEDIT: an address inside a page stops the pass. */
  lemma {:induction false} UnalignedStops<R>(gs: seq<SegmentView<R>>, word: nat, loc: Location)
    requires gs != [] && !gs[0].kind.Linkedit? && loc.vmaddr % 0x1000 != 0
    ensures BuildSegments(gs, word, loc) == None
  {
    BuildSegmentsStep(gs, word, loc);
    hide BuildSegments;
  }
}
