/**
 What rebase and bind nodes need of the blob they patch: whether it is active, where it was built and in which
 segment. Sizes are predicted from file offsets, but the stream holds offsets of vmaddrs.
 */
module Fixups {
  import opened Wrappers
  import opened Arith
  import opened Blobs
  import opened Layout

  type nibble = n: nat | n < 16

  datatype Target = Target(active: bool, loc: Location, segId: nat, seg: Location) {
    /** The segment offset used by `size()`. */
    function FileOff(): uint64 { (loc.offset - seg.offset) % TWO_64 }

    /** The segment offset used by `Emit`. */
    function VmOff(): uint64 { (loc.vmaddr - seg.vmaddr) % TWO_64 }

    predicate InStep() { loc.offset - seg.offset == loc.vmaddr - seg.vmaddr }

    /** `segs` are the segment vmaddrs by index, as a reader of the output finds them. */
    predicate Seated(segs: seq<uint64>) {
      segId < 16 && segId < |segs| && segs[segId] == seg.vmaddr && loc.vmaddr < TWO_64
    }
  }

  /** The address a reader computes from the emitted segment offset. */
  lemma {:induction false} OffsetReadsBack(t: Target, segs: seq<uint64>)
    requires t.Seated(segs)
    ensures (t.VmOff() + segs[t.segId]) % TWO_64 == t.loc.vmaddr
  {
    var d := t.loc.vmaddr - t.seg.vmaddr;
    assert t.VmOff() == d % TWO_64;
    ModShift(d % TWO_64 + t.seg.vmaddr, d / TWO_64, TWO_64);
    assert d == d / TWO_64 * TWO_64 + d % TWO_64;
  }

  /** Two additions that each wrap are one that wraps. */
  lemma {:induction false} AddWraps(a: int, b: int, c: int)
    ensures ((a + b) % TWO_64 + c) % TWO_64 == (a + b + c) % TWO_64
  {
    ModShift((a + b) % TWO_64 + c, (a + b) / TWO_64, TWO_64);
    assert a + b == (a + b) / TWO_64 * TWO_64 + (a + b) % TWO_64;
  }

  /** Every blob and every immediate the layout pass places is in step with its segment. */
  lemma {:induction false} LaidOutInStep<R>(gs: seq<SegmentView<R>>, word: nat, k: nat, i: nat, j: nat, active: bool)
    requires ArchiveLocked(gs, word)
    requires k < |gs| && gs[k].Regular() && i < |gs[k].sections| && j < |gs[k].sections[i].content|
    ensures
      var seg, b := Location(gs[k].fileoff, gs[k].vmaddr), gs[k].sections[i].content[j];
      && Target(active, b.Start(), k, seg).InStep()
      && (b.kind.Inst? && b.kind.insn.imm.Some? ==>
            b.kind.insn.imm.value.offset - seg.offset == b.kind.insn.imm.value.vmaddr - seg.vmaddr)
  {
    var seg := Location(gs[k].fileoff, gs[k].vmaddr);
    assert SegmentLocked(gs[k], word);
    assert SectionLocked(seg, gs[k].sections[i], word);
    assert BlobLocked(seg, gs[k].sections[i].content[j]);
  }
}
