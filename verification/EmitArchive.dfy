/**
 Writing the whole file: Archive::Emit (src/core/archive.cc), Segment::Emit (src/core/segment.cc) and Section::Emit
 (src/core/section.cc). Commands are written one after the other behind the header; on the way a segment writes the
 contents of its sections where they were laid out, and other commands write their tables into __LINKEDIT.
 */
module EmitArchive {
  import opened Wrappers
  import opened Images
  import opened Blobs
  import opened Layout
  import opened Emit

  /** Bytes of a structure or a table, and where they go. */
  datatype Chunk = Chunk(off: nat, bs: bytes)

  /**
   A load command as it is written: its own structure, then for a segment the structures and contents of its sections,
   for another command its link-edit tables.
   */
  datatype Command<R> =
    | Load(g: SegmentView<R>, head: bytes, heads: seq<bytes>)
    | Other(head: bytes, tables: seq<Chunk>)
  {
    predicate Valid() { Load? ==> |heads| == |g.sections| }

    /** LoadCommand::size. */
    function Size(): nat
      requires Valid()
    {
      |head| + if Load? then Lengths(heads) else 0
    }
  }

  function Lengths(heads: seq<bytes>): nat
  {
    if heads == [] then 0 else |heads[0]| + Lengths(heads[1..])
  }

  datatype Step<R> = Put(c: Chunk) | Body(s: SectionView<R>)

  // ----- the writes, in order -----

  function SectionSteps<R>(ss: seq<SectionView<R>>, heads: seq<bytes>, off: nat): seq<Step<R>>
    requires |heads| == |ss|
  {
    if ss == [] then []
    else [Put(Chunk(off, heads[0])), Body(ss[0])] + SectionSteps(ss[1..], heads[1..], off + |heads[0]|)
  }

  function Puts<R>(cs: seq<Chunk>): (r: seq<Step<R>>)
    ensures |r| == |cs| && forall i :: 0 <= i < |cs| ==> r[i] == Put(cs[i])
  {
    seq(|cs|, i requires 0 <= i < |cs| => Put(cs[i]))
  }

  function CommandSteps<R>(c: Command<R>, off: nat): seq<Step<R>>
    requires c.Valid()
  {
    [Put(Chunk(off, c.head))] +
    match c
    case Load(g, head, heads) => SectionSteps(g.sections, heads, off + |head|)
    case Other(_, tables) => Puts(tables)
  }

  predicate AllValid<R>(cs: seq<Command<R>>)
  {
    forall i :: 0 <= i < |cs| ==> cs[i].Valid()
  }

  function CommandsSteps<R>(cs: seq<Command<R>>, off: nat): seq<Step<R>>
    requires AllValid(cs)
  {
    if cs == [] then [] else CommandSteps(cs[0], off) + CommandsSteps(cs[1..], off + cs[0].Size())
  }

  function ArchiveSteps<R>(header: bytes, cs: seq<Command<R>>): seq<Step<R>>
    requires AllValid(cs)
  {
    [Put(Chunk(0, header))] + CommandsSteps(cs, |header|)
  }

  function Do<R(==)>(st: Step<R>, word: nat, at: map<R, nat>, index: map<nat, uint32>, data: bytes): Option<bytes>
  {
    match st
    case Put(c) => Some(Write(data, c.off, c.bs))
    case Body(s) =>
      match EmitAll(s.content, word, at, index, data, s.offset)
      case None => None
      case Some((d, _)) => Some(d)
  }

  function DoAll<R(==)>(sts: seq<Step<R>>, word: nat, at: map<R, nat>, index: map<nat, uint32>, data: bytes)
    : Option<bytes>
  {
    if sts == [] then Some(data)
    else
      match Do(sts[0], word, at, index, data)
      case None => None
      case Some(d) => DoAll(sts[1..], word, at, index, d)
  }

  lemma {:induction false} DoAllStep<R>(
    sts: seq<Step<R>>, word: nat, at: map<R, nat>, index: map<nat, uint32>, data: bytes)
    ensures sts == [] ==> DoAll(sts, word, at, index, data) == Some(data)
    ensures sts != [] && Do(sts[0], word, at, index, data).None? ==> DoAll(sts, word, at, index, data) == None
    ensures sts != [] && Do(sts[0], word, at, index, data).Some? ==>
      DoAll(sts, word, at, index, data) == DoAll(sts[1..], word, at, index, Do(sts[0], word, at, index, data).value)
  {
    hide Do;
  }

  lemma {:induction false} DoAllAppend<R>(
    a: seq<Step<R>>, b: seq<Step<R>>, word: nat, at: map<R, nat>, index: map<nat, uint32>, data: bytes)
    ensures DoAll(a, word, at, index, data).None? ==> DoAll(a + b, word, at, index, data) == None
    ensures DoAll(a, word, at, index, data).Some? ==>
      DoAll(a + b, word, at, index, data) == DoAll(b, word, at, index, DoAll(a, word, at, index, data).value)
    decreases |a|
  {
    hide *;
    DoAllStep(a, word, at, index, data);
    DoAllStep(a + b, word, at, index, data);
    if a == [] {
      assert a + b == b;
    } else {
      assert (a + b)[0] == a[0] && (a + b)[1..] == a[1..] + b;
      if Do(a[0], word, at, index, data).Some? {
        DoAllAppend(a[1..], b, word, at, index, Do(a[0], word, at, index, data).value);
      }
    }
  }

  // ----- the emitting loops -----

  predicate NonEmptyCodes<R>(ss: seq<SectionView<R>>)
  {
    forall i :: 0 <= i < |ss| ==> NonEmptyCode(ss[i].content)
  }

  method PutChunk(c: Chunk, img: Image)
    modifies img
    ensures img.data == Write(old(img.data), c.off, c.bs)
  {
    if c.bs != [] {
      img.Copy(c.off, c.bs);
    }
  }

  /** Section::Emit for every section of a segment, its structure first. */
  method EmitSections<R(==)>(
    ss: seq<SectionView<R>>, heads: seq<bytes>, word: nat, at: map<R, nat>, index: map<nat, uint32>, img: Image, off: nat)
    returns (ok: bool)
    requires |heads| == |ss| && word > 0 && NonEmptyCodes(ss)
    modifies img
    ensures ok <==> DoAll(SectionSteps(ss, heads, off), word, at, index, old(img.data)).Some?
    ensures ok ==> DoAll(SectionSteps(ss, heads, off), word, at, index, old(img.data)) == Some(img.data)
  {
    hide EmitAll, Write, NonEmptyCode;
    var here: nat := off;
    for i := 0 to |ss|
      invariant DoAll(SectionSteps(ss, heads, off), word, at, index, old(img.data)) ==
                DoAll(SectionSteps(ss[i..], heads[i..], here), word, at, index, img.data)
    {
      assert ss[i..][1..] == ss[i + 1..] && heads[i..][1..] == heads[i + 1..];
      var rest := SectionSteps(ss[i + 1..], heads[i + 1..], here + |heads[i]|);
      assert SectionSteps(ss[i..], heads[i..], here) == [Put(Chunk(here, heads[i])), Body(ss[i])] + rest;
      assert ([Put(Chunk(here, heads[i])), Body(ss[i])] + rest)[1..] == [Body(ss[i])] + rest;
      assert ([Body(ss[i])] + rest)[1..] == rest;
      PutChunk(Chunk(here, heads[i]), img);
      var written, _ := EmitBlobs(ss[i].content, word, at, index, img, ss[i].offset);
      if !written {
        return false;
      }
      here := here + |heads[i]|;
    }
    return true;
  }

  method PutTables<R(==)>(tables: seq<Chunk>, word: nat, at: map<R, nat>, index: map<nat, uint32>, img: Image)
    modifies img
    ensures DoAll(Puts<R>(tables), word, at, index, old(img.data)) == Some(img.data)
  {
    for i := 0 to |tables|
      invariant DoAll(Puts<R>(tables), word, at, index, old(img.data)) ==
                DoAll(Puts<R>(tables)[i..], word, at, index, img.data)
    {
      assert Puts<R>(tables)[i..][1..] == Puts<R>(tables)[i + 1..];
      PutChunk(tables[i], img);
    }
  }

  method EmitCommand<R(==)>(
    c: Command<R>, word: nat, at: map<R, nat>, index: map<nat, uint32>, img: Image, off: nat) returns (ok: bool)
    requires c.Valid() && word > 0 && (c.Load? ==> NonEmptyCodes(c.g.sections))
    modifies img
    ensures ok <==> DoAll(CommandSteps(c, off), word, at, index, old(img.data)).Some?
    ensures ok ==> DoAll(CommandSteps(c, off), word, at, index, old(img.data)) == Some(img.data)
  {
    hide DoAll, SectionSteps, Puts, NonEmptyCodes;
    PutChunk(Chunk(off, c.head), img);
    ghost var rest := match c
      case Load(g, head, heads) => SectionSteps(g.sections, heads, off + |head|)
      case Other(_, tables) => Puts(tables);
    DoAllStep([Put(Chunk(off, c.head))] + rest, word, at, index, old(img.data));
    assert ([Put(Chunk(off, c.head))] + rest)[1..] == rest;
    match c {
      case Load(g, head, heads) =>
        ok := EmitSections(g.sections, heads, word, at, index, img, off + |head|);
      case Other(_, tables) =>
        PutTables(tables, word, at, index, img);
        ok := true;
    }
  }

  predicate Emittable<R>(cs: seq<Command<R>>)
  {
    AllValid(cs) && forall i :: 0 <= i < |cs| && cs[i].Load? ==> NonEmptyCodes(cs[i].g.sections)
  }

  /** Archive::Emit: the header, then every load command behind the one before it. */
  method EmitFile<R(==)>(
    header: bytes, cs: seq<Command<R>>, word: nat, at: map<R, nat>, index: map<nat, uint32>, img: Image)
    returns (ok: bool)
    requires Emittable(cs) && word > 0
    modifies img
    ensures ok <==> DoAll(ArchiveSteps(header, cs), word, at, index, old(img.data)).Some?
    ensures ok ==> DoAll(ArchiveSteps(header, cs), word, at, index, old(img.data)) == Some(img.data)
  {
    hide DoAll, CommandSteps, NonEmptyCodes, Write;
    PutChunk(Chunk(0, header), img);
    DoAllStep(ArchiveSteps(header, cs), word, at, index, old(img.data));
    assert ArchiveSteps(header, cs)[1..] == CommandsSteps(cs, |header|);
    var off: nat := |header|;
    for i := 0 to |cs|
      invariant DoAll(ArchiveSteps(header, cs), word, at, index, old(img.data)) ==
                DoAll(CommandsSteps(cs[i..], off), word, at, index, img.data)
    {
      assert cs[i..][1..] == cs[i + 1..];
      DoAllAppend(CommandSteps(cs[i], off), CommandsSteps(cs[i + 1..], off + cs[i].Size()), word, at, index, img.data);
      var written := EmitCommand(cs[i], word, at, index, img, off);
      if !written {
        return false;
      }
      off := off + cs[i].Size();
    }
    DoAllStep(CommandsSteps(cs[|cs|..], off), word, at, index, img.data);
    return true;
  }

  /** Every active blob of a step has its bytes. */
  ghost predicate Sayable<R>(st: Step<R>, word: nat, at: map<R, nat>, index: map<nat, uint32>)
  {
    st.Body? ==> forall j :: 0 <= j < |st.s.content| && st.s.content[j].active ==>
      BlobBytes(st.s.content[j], word, at, index).Some?
  }

  /** The file is written unless some section is not. */
  lemma {:induction false} DoAllIff<R>(
    sts: seq<Step<R>>, word: nat, at: map<R, nat>, index: map<nat, uint32>, data: bytes)
    ensures DoAll(sts, word, at, index, data).Some? <==>
            forall n :: 0 <= n < |sts| ==> Sayable(sts[n], word, at, index)
    decreases |sts|
  {
    hide *;
    DoAllStep(sts, word, at, index, data);
    if sts == [] {
    } else {
      DoIff(sts[0], word, at, index, data);
      if Do(sts[0], word, at, index, data).Some? {
        DoAllIff(sts[1..], word, at, index, Do(sts[0], word, at, index, data).value);
      }
      assert sts == [sts[0]] + sts[1..];
    }
  }

  lemma {:induction false} DoIff<R>(
    st: Step<R>, word: nat, at: map<R, nat>, index: map<nat, uint32>, data: bytes)
    ensures Do(st, word, at, index, data).Some? <==> Sayable(st, word, at, index)
  {
    hide BlobBytes, EmitAll, Write;
    if st.Body? {
      EmitAllIff(st.s.content, word, at, index, data, st.s.offset);
    }
  }

  // ----- what is written stays -----

  /** The bytes of the file a step may write. */
  function Low<R>(st: Step<R>): nat
  {
    match st
    case Put(c) => c.off
    case Body(s) => s.offset
  }

  function High<R>(st: Step<R>, word: nat): nat
  {
    match st
    case Put(c) => c.off + |c.bs|
    case Body(s) => s.offset + Emitted(s.content, word)
  }

  predicate Apart<R>(a: Step<R>, b: Step<R>, word: nat)
  {
    High(a, word) <= Low(b) || High(b, word) <= Low(a)
  }

  lemma {:induction false} StepHolds<R>(
    st: Step<R>, word: nat, at: map<R, nat>, index: map<nat, uint32>, data: bytes, lo: nat, bs: bytes)
    requires Do(st, word, at, index, data).Some? && Holds(data, lo, bs)
    requires High(st, word) <= lo || lo + |bs| <= Low(st)
    ensures Holds(Do(st, word, at, index, data).value, lo, bs)
  {
    match st
    case Body(s) => EmitAllHolds(s.content, word, at, index, data, s.offset, lo, bs);
    case Put(c) =>
      var r := Write(data, c.off, c.bs);
      if bs != [] {
        forall k | 0 <= k < |bs| ensures lo + k < |r| && r[lo + k] == bs[k] {
          assert data[lo + k] == data[lo..lo + |bs|][k];
          WriteKeeps(data, c.off, c.bs, lo + k);
        }
        WriteKeeps(data, c.off, c.bs, lo + |bs| - 1);
        assert r[lo..lo + |bs|] == bs;
      }
  }

  lemma {:induction false} StepsHold<R>(
    sts: seq<Step<R>>, word: nat, at: map<R, nat>, index: map<nat, uint32>, data: bytes, lo: nat, bs: bytes)
    requires DoAll(sts, word, at, index, data).Some? && Holds(data, lo, bs)
    requires forall i :: 0 <= i < |sts| ==> High(sts[i], word) <= lo || lo + |bs| <= Low(sts[i])
    ensures Holds(DoAll(sts, word, at, index, data).value, lo, bs)
    decreases |sts|
  {
    hide Do, Holds, High, Low;
    if sts == [] {
    } else {
      StepHolds(sts[0], word, at, index, data, lo, bs);
      StepsHold(sts[1..], word, at, index, Do(sts[0], word, at, index, data).value, lo, bs);
    }
  }

  lemma {:induction false} PartApart<R>(s: SectionView<R>, st: Step<R>, word: nat, lo: nat, hi: nat)
    requires Apart(Body(s), st, word) && s.offset <= lo && hi <= s.offset + Emitted(s.content, word)
    ensures High(st, word) <= lo || hi <= Low(st)
  {
    hide Emitted;
  }

  lemma {:induction false} WrittenIs<R>(
    c: seq<Blob<R>>, word: nat, at: map<R, nat>, index: map<nat, uint32>, data: bytes, off: nat, j: nat)
    requires j < |c| && BlobBytes(c[j], word, at, index).Some?
    requires Holds(data, off + Emitted(c[..j], word), BlobBytes(c[j], word, at, index).value)
    ensures Written(c, word, at, index, data, off, j)
  {
    hide BlobBytes, Holds, Emitted;
  }

  /** Right after a section's loop. */
  lemma {:induction false} BodyWrites<R>(
    s: SectionView<R>, word: nat, at: map<R, nat>, index: map<nat, uint32>, data: bytes, j: nat)
    requires Do(Body(s), word, at, index, data).Some? && j < |s.content| && s.content[j].active
    ensures BlobBytes(s.content[j], word, at, index).Some?
    ensures
      var bs := BlobBytes(s.content[j], word, at, index).value;
      && Holds(Do(Body(s), word, at, index, data).value, s.offset + Emitted(s.content[..j], word), bs)
      && Emitted(s.content[..j], word) + |bs| <= Emitted(s.content, word)
  {
    hide Holds, EmitAll, BlobBytes, Blob.Size, Emitted;
    EmitAllWrites(s.content, word, at, index, data, s.offset, j);
    WithinEmitted(s.content, word, at, index, j);
  }

  /** A section keeps its bytes in the finished file if no later write touches them. */
  lemma {:induction false} BodyStands<R>(
    sts: seq<Step<R>>, word: nat, at: map<R, nat>, index: map<nat, uint32>, data: bytes, n: nat, j: nat)
    requires DoAll(sts, word, at, index, data).Some? && n < |sts| && sts[n].Body?
    requires j < |sts[n].s.content| && sts[n].s.content[j].active
    requires forall m :: n < m < |sts| ==> Apart(sts[n], sts[m], word)
    ensures Written(sts[n].s.content, word, at, index, DoAll(sts, word, at, index, data).value, sts[n].s.offset, j)
    decreases n
  {
    hide *;
    DoAllStep(sts, word, at, index, data);
    var d := Do(sts[0], word, at, index, data).value;
    if n == 0 {
      var s := sts[0].s;
      BodyWrites(s, word, at, index, data, j);
      var lo, bs := s.offset + Emitted(s.content[..j], word), BlobBytes(s.content[j], word, at, index).value;
      forall i | 0 <= i < |sts[1..]| ensures High(sts[1..][i], word) <= lo || lo + |bs| <= Low(sts[1..][i]) {
        PartApart(s, sts[1..][i], word, lo, lo + |bs|);
      }
      StepsHold(sts[1..], word, at, index, d, lo, bs);
      WrittenIs(s.content, word, at, index, DoAll(sts, word, at, index, data).value, s.offset, j);
    } else {
      BodyStands(sts[1..], word, at, index, d, n - 1, j);
    }
  }

  lemma {:induction false} EmittedMonotone<R>(c: seq<Blob<R>>, word: nat, j: nat)
    requires j <= |c|
    ensures Emitted(c[..j], word) <= Emitted(c, word)
    decreases |c| - j
  {
    if j == |c| {
      assert c[..j] == c;
    } else {
      EmittedSplit(c, word, j);
      EmittedMonotone(c, word, j + 1);
    }
  }

  lemma {:induction false} WithinEmitted<R>(
    c: seq<Blob<R>>, word: nat, at: map<R, nat>, index: map<nat, uint32>, j: nat)
    requires j < |c| && c[j].active && BlobBytes(c[j], word, at, index).Some?
    ensures Emitted(c[..j], word) + |BlobBytes(c[j], word, at, index).value| <= Emitted(c, word)
  {
    EmittedSplit(c, word, j);
    EmittedMonotone(c, word, j + 1);
    hide BlobBytes, Emitted;
  }

  // ----- the writes of a laid out archive do not meet -----

  function Segments<R>(cs: seq<Command<R>>): seq<SegmentView<R>>
  {
    if cs == [] then []
    else (if cs[0].Load? then [cs[0].g] else []) + Segments(cs[1..])
  }

  function CommandsSize<R>(cs: seq<Command<R>>): nat
    requires AllValid(cs)
  {
    if cs == [] then 0 else cs[0].Size() + CommandsSize(cs[1..])
  }

  /** A table lies in the link-edit segment. */
  ghost predicate InLinkedit<R>(c: Chunk, gs: seq<SegmentView<R>>)
  {
    exists k :: 0 <= k < |gs| && gs[k].kind.Linkedit? && gs[k].fileoff <= c.off &&
      c.off + |c.bs| <= gs[k].fileoff + gs[k].filesize
  }

  ghost predicate TablesIn<R>(cs: seq<Command<R>>, gs: seq<SegmentView<R>>)
  {
    forall i, t :: 0 <= i < |cs| && cs[i].Other? && 0 <= t < |cs[i].tables| ==> InLinkedit(cs[i].tables[t], gs)
  }

  /** The file is laid out: headers below `limit`, everything else above it and in order. */
  ghost predicate LaidOut<R>(gs: seq<SegmentView<R>>, word: nat, limit: nat)
  {
    && ArchiveLocked(gs, word)
    && (forall k :: 0 <= k < |gs| && !gs[k].Regular() ==> gs[k].sections == [])
    && forall k, i :: 0 <= k < |gs| && 0 <= i < |gs[k].sections| ==>
         limit <= gs[k].sections[i].offset && Emitted(gs[k].sections[i].content, word) <= gs[k].sections[i].size
  }

  ghost predicate BodyIn<R>(st: Step<R>, gs: seq<SegmentView<R>>, k: nat, i: nat)
  {
    k < |gs| && i < |gs[k].sections| && st == Body(gs[k].sections[i])
  }

  /** A write that belongs to segments `lo` to `hi - 1`, or to no section. */
  ghost predicate From<R>(st: Step<R>, gs: seq<SegmentView<R>>, limit: nat, lo: nat, hi: nat)
  {
    match st
    case Put(c) => c.off + |c.bs| <= limit || InLinkedit(c, gs)
    case Body(_) => exists k: nat, i: nat :: lo <= k < hi && BodyIn(st, gs, k, i)
  }

  /** Two writes of which one is a section's do not meet. */
  ghost predicate Spread<R>(sts: seq<Step<R>>, word: nat)
  {
    forall n, m :: 0 <= n < m < |sts| && (sts[n].Body? || sts[m].Body?) ==> Apart(sts[n], sts[m], word)
  }

  lemma {:induction false} BodyRange<R>(
    st: Step<R>, gs: seq<SegmentView<R>>, word: nat, limit: nat, k: nat, i: nat)
    requires LaidOut(gs, word, limit) && BodyIn(st, gs, k, i)
    ensures gs[k].Regular() && Low(st) == gs[k].sections[i].offset && limit <= Low(st)
    ensures High(st, word) <= gs[k].sections[i].offset + gs[k].sections[i].size
    ensures gs[k].fileoff <= Low(st) && High(st, word) <= gs[k].fileoff + gs[k].filesize
  {
    hide Emitted;
    assert SegmentLocked(gs[k], word);
    hide SectionLocked;
  }

  lemma {:induction false} BodiesApart<R>(
    a: Step<R>, b: Step<R>, gs: seq<SegmentView<R>>, word: nat, limit: nat, k: nat, i: nat, l: nat, j: nat)
    requires LaidOut(gs, word, limit) && BodyIn(a, gs, k, i) && BodyIn(b, gs, l, j)
    requires k < l || (k == l && i < j)
    ensures Apart(a, b, word)
  {
    BodyRange(a, gs, word, limit, k, i);
    BodyRange(b, gs, word, limit, l, j);
    hide SectionLocked, Low, High;
    if k < l {
      assert Follows(gs[k], gs[l]);
    } else {
      assert SegmentLocked(gs[k], word);
    }
  }

  lemma {:induction false} PutApart<R>(
    a: Step<R>, c: Chunk, gs: seq<SegmentView<R>>, word: nat, limit: nat, k: nat, i: nat)
    requires LaidOut(gs, word, limit) && BodyIn(a, gs, k, i)
    requires c.off + |c.bs| <= limit || InLinkedit(c, gs)
    ensures Apart(a, Put(c), word) && Apart(Put(c), a, word)
  {
    BodyRange(a, gs, word, limit, k, i);
    if c.off + |c.bs| > limit {
      var l :| 0 <= l < |gs| && gs[l].kind.Linkedit? && gs[l].fileoff <= c.off &&
        c.off + |c.bs| <= gs[l].fileoff + gs[l].filesize;
      assert k != l;
      if k < l {
        assert Follows(gs[k], gs[l]);
      } else {
        assert Follows(gs[l], gs[k]);
      }
    }
    hide *;
  }

  lemma {:induction false} FromApart<R>(
    a: Step<R>, b: Step<R>, gs: seq<SegmentView<R>>, word: nat, limit: nat, lo: nat, mid: nat, hi: nat)
    requires LaidOut(gs, word, limit) && From(a, gs, limit, lo, mid) && From(b, gs, limit, mid, hi)
    requires a.Body? || b.Body?
    ensures Apart(a, b, word)
  {
    hide LaidOut, Apart, InLinkedit, BodyIn;
    if a.Body? {
      var k: nat, i: nat :| lo <= k < mid && BodyIn(a, gs, k, i);
      if b.Body? {
        var l: nat, j: nat :| mid <= l < hi && BodyIn(b, gs, l, j);
        BodiesApart(a, b, gs, word, limit, k, i, l, j);
      } else {
        PutApart(a, b.c, gs, word, limit, k, i);
      }
    } else {
      var l: nat, j: nat :| mid <= l < hi && BodyIn(b, gs, l, j);
      PutApart(b, a.c, gs, word, limit, l, j);
    }
  }

  lemma {:induction false} SpreadAppend<R>(
    a: seq<Step<R>>, b: seq<Step<R>>, gs: seq<SegmentView<R>>, word: nat, limit: nat, lo: nat, mid: nat, hi: nat)
    requires LaidOut(gs, word, limit) && Spread(a, word) && Spread(b, word)
    requires forall n :: 0 <= n < |a| ==> From(a[n], gs, limit, lo, mid)
    requires forall n :: 0 <= n < |b| ==> From(b[n], gs, limit, mid, hi)
    ensures Spread(a + b, word)
  {
    hide LaidOut, Apart, From;
    forall n, m | 0 <= n < m < |a + b| && ((a + b)[n].Body? || (a + b)[m].Body?)
      ensures Apart((a + b)[n], (a + b)[m], word)
    {
      if n < |a| <= m {
        FromApart(a[n], b[m - |a|], gs, word, limit, lo, mid, hi);
      }
    }
  }

  lemma {:induction false} FromWiden<R>(
    st: Step<R>, gs: seq<SegmentView<R>>, limit: nat, lo: nat, hi: nat, lo': nat, hi': nat)
    requires From(st, gs, limit, lo, hi) && lo' <= lo && hi <= hi'
    ensures From(st, gs, limit, lo', hi')
  {
    hide InLinkedit, BodyIn;
  }

  /** The writes of the sections of segment `k` from section `i` on. */
  lemma {:induction false} SectionStepsSpread<R>(
    gs: seq<SegmentView<R>>, word: nat, limit: nat, k: nat, i: nat, heads: seq<bytes>, off: nat)
    requires LaidOut(gs, word, limit) && k < |gs| && i <= |gs[k].sections| && |heads| == |gs[k].sections| - i
    requires off + Lengths(heads) <= limit
    ensures
      var sts := SectionSteps(gs[k].sections[i..], heads, off);
      && Spread(sts, word)
      && forall n :: 0 <= n < |sts| ==>
           if sts[n].Put? then sts[n].c.off + |sts[n].c.bs| <= limit
           else exists j: nat :: i <= j && BodyIn(sts[n], gs, k, j)
    decreases |heads|
  {
    hide LaidOut, Apart, BodyIn;
    var ss := gs[k].sections;
    if heads == [] {
    } else {
      assert ss[i..][1..] == ss[i + 1..];
      var rest := SectionSteps(ss[i + 1..], heads[1..], off + |heads[0]|);
      SectionStepsSpread(gs, word, limit, k, i + 1, heads[1..], off + |heads[0]|);
      var put, body := Put(Chunk(off, heads[0])), Body(ss[i]);
      var sts := [put, body] + rest;
      assert SectionSteps(ss[i..], heads, off) == sts;
      BodyInAt(gs, k, i);
      forall n, m | 0 <= n < m < |sts| && (sts[n].Body? || sts[m].Body?) ensures Apart(sts[n], sts[m], word) {
        if n >= 2 {
          assert sts[n] == rest[n - 2] && sts[m] == rest[m - 2];
        } else {
          FirstApart(sts, gs, word, limit, k, i, n, m);
        }
      }
      forall n | 0 <= n < |sts|
        ensures if sts[n].Put? then sts[n].c.off + |sts[n].c.bs| <= limit
                else exists j: nat :: i <= j && BodyIn(sts[n], gs, k, j)
      {
        if n >= 2 {
          assert sts[n] == rest[n - 2];
        }
      }
    }
  }

  lemma {:induction false} BodyInAt<R>(gs: seq<SegmentView<R>>, k: nat, i: nat)
    requires k < |gs| && i < |gs[k].sections|
    ensures BodyIn(Body(gs[k].sections[i]), gs, k, i)
  {
  }

  /** The structure of section `i` and its contents against what follows them. */
  lemma {:induction false} FirstApart<R>(
    sts: seq<Step<R>>, gs: seq<SegmentView<R>>, word: nat, limit: nat, k: nat, i: nat, n: nat, m: nat)
    requires LaidOut(gs, word, limit) && n < 2 && n < m < |sts| && (sts[n].Body? || sts[m].Body?)
    requires sts[0].Put? && sts[0].c.off + |sts[0].c.bs| <= limit && BodyIn(sts[1], gs, k, i)
    requires forall l :: 2 <= l < |sts| ==>
      if sts[l].Put? then sts[l].c.off + |sts[l].c.bs| <= limit
      else exists j: nat :: i + 1 <= j && BodyIn(sts[l], gs, k, j)
    ensures Apart(sts[n], sts[m], word)
  {
    hide LaidOut, Apart;
    if sts[m].Put? {
      PutApart(sts[1], sts[m].c, gs, word, limit, k, i);
    } else {
      var j: nat :| i <= j && BodyIn(sts[m], gs, k, j) && (m > 1 ==> i < j);
      if n == 0 {
        PutApart(sts[m], sts[0].c, gs, word, limit, k, j);
      } else {
        BodiesApart(sts[1], sts[m], gs, word, limit, k, i, k, j);
      }
    }
  }

  /** The writes of one command: a segment's own, or none of a section. */
  lemma {:induction false} CommandStepsSpread<R>(
    c: Command<R>, gs: seq<SegmentView<R>>, word: nat, limit: nat, k: nat, off: nat)
    requires LaidOut(gs, word, limit) && c.Valid() && off + c.Size() <= limit
    requires c.Load? ==> k < |gs| && c.g == gs[k]
    requires c.Other? ==> forall t :: 0 <= t < |c.tables| ==> InLinkedit(c.tables[t], gs)
    ensures
      var sts := CommandSteps(c, off);
      && Spread(sts, word)
      && forall n :: 0 <= n < |sts| ==> From(sts[n], gs, limit, k, if c.Load? then k + 1 else k)
  {
    hide LaidOut, Apart, InLinkedit, BodyIn, SectionSteps;
    var put := Put(Chunk(off, c.head));
    match c
    case Other(head, tables) =>
      assert CommandSteps(c, off) == [put] + Puts(tables);
    case Load(g, head, heads) =>
      var rest := SectionSteps(g.sections, heads, off + |head|);
      assert g.sections[0..] == g.sections;
      SectionStepsSpread(gs, word, limit, k, 0, heads, off + |head|);
      forall n | 0 <= n < |rest| ensures From(rest[n], gs, limit, k, k + 1) {
        if rest[n].Body? {
          var j: nat :| BodyIn(rest[n], gs, k, j);
        }
      }
      SpreadAppend([put], rest, gs, word, limit, k, k, k + 1);
  }

  /** All the writes: whatever touches a section's range is that section's own. */
  lemma {:induction false} CommandsStepsSpread<R>(
    cs: seq<Command<R>>, gs: seq<SegmentView<R>>, word: nat, limit: nat, k: nat, off: nat)
    requires LaidOut(gs, word, limit) && AllValid(cs) && off + CommandsSize(cs) <= limit && TablesIn(cs, gs)
    requires k <= |gs| && Segments(cs) == gs[k..]
    ensures
      var sts := CommandsSteps(cs, off);
      Spread(sts, word) && forall n :: 0 <= n < |sts| ==> From(sts[n], gs, limit, k, |gs|)
    decreases |cs|
  {
    hide LaidOut, Apart, InLinkedit, CommandSteps, From, Spread;
    if cs == [] {
      NoStepsSpread<R>(word);
    } else {
      var next := if cs[0].Load? then k + 1 else k;
      SegmentsStep(cs, gs, k);
      CommandStepsSpread(cs[0], gs, word, limit, k, off);
      CommandsStepsSpread(cs[1..], gs, word, limit, next, off + cs[0].Size());
      var a, b := CommandSteps(cs[0], off), CommandsSteps(cs[1..], off + cs[0].Size());
      forall n | 0 <= n < |b| ensures From(b[n], gs, limit, k, |gs|) {
        FromWiden(b[n], gs, limit, next, |gs|, k, |gs|);
      }
      forall n | 0 <= n < |a| ensures From(a[n], gs, limit, k, |gs|) {
        FromWiden(a[n], gs, limit, k, next, k, |gs|);
      }
      SpreadAppend(a, b, gs, word, limit, k, next, |gs|);
    }
  }

  lemma {:induction false} NoStepsSpread<R>(word: nat)
    ensures Spread<R>([], word)
  {
  }

  lemma {:induction false} SegmentsStep<R>(cs: seq<Command<R>>, gs: seq<SegmentView<R>>, k: nat)
    requires cs != [] && k <= |gs| && Segments(cs) == gs[k..]
    ensures cs[0].Load? ==> k < |gs| && cs[0].g == gs[k] && Segments(cs[1..]) == gs[k + 1..]
    ensures cs[0].Other? ==> Segments(cs[1..]) == gs[k..]
  {
    if cs[0].Load? {
      assert gs[k..] == [cs[0].g] + Segments(cs[1..]);
      assert gs[k..][0] == gs[k] && gs[k..][1..] == gs[k + 1..];
    } else {
      assert gs[k..] == [] + Segments(cs[1..]);
    }
  }

  /** Every section of every segment is written by some step. */
  lemma {:induction false} BodyStep<R>(cs: seq<Command<R>>, gs: seq<SegmentView<R>>, l: nat, off: nat, k: nat, i: nat)
    returns (n: nat)
    requires AllValid(cs) && l <= k < |gs| && Segments(cs) == gs[l..] && i < |gs[k].sections|
    ensures n < |CommandsSteps(cs, off)| && CommandsSteps(cs, off)[n] == Body(gs[k].sections[i])
    decreases |cs|
  {
    hide CommandSteps;
    if cs == [] {
      assert false;
    } else {
      SegmentsStep(cs, gs, l);
      var a := CommandSteps(cs[0], off);
      if cs[0].Load? && k == l {
        n := SectionStep(gs[k].sections, cs[0].heads, off + |cs[0].head|, i);
        CommandLoads(cs[0], off);
        n := n + 1;
      } else {
        n := BodyStep(cs[1..], gs, if cs[0].Load? then l + 1 else l, off + cs[0].Size(), k, i);
        n := n + |a|;
      }
    }
  }

  lemma {:induction false} CommandLoads<R>(c: Command<R>, off: nat)
    requires c.Valid() && c.Load?
    ensures CommandSteps(c, off) == [Put(Chunk(off, c.head))] + SectionSteps(c.g.sections, c.heads, off + |c.head|)
  {
  }

  lemma {:induction false} SectionStep<R>(ss: seq<SectionView<R>>, heads: seq<bytes>, off: nat, i: nat) returns (n: nat)
    requires |heads| == |ss| && i < |ss|
    ensures n < |SectionSteps(ss, heads, off)| && SectionSteps(ss, heads, off)[n] == Body(ss[i])
  {
    if i == 0 {
      n := 1;
    } else {
      n := SectionStep(ss[1..], heads[1..], off + |heads[0]|, i - 1);
      n := n + 2;
    }
  }

  /**
   In the finished file of a laid out archive the bytes of every active blob of every section stand where the section's
   loop put them, whatever was written before or after.
   */
  lemma {:induction false} FileStands<R>(
    header: bytes, cs: seq<Command<R>>, gs: seq<SegmentView<R>>, word: nat, at: map<R, nat>, index: map<nat, uint32>,
    data: bytes, limit: nat, k: nat, i: nat, j: nat)
    requires LaidOut(gs, word, limit) && AllValid(cs) && |header| + CommandsSize(cs) <= limit && TablesIn(cs, gs)
    requires Segments(cs) == gs && DoAll(ArchiveSteps(header, cs), word, at, index, data).Some?
    requires k < |gs| && i < |gs[k].sections| && j < |gs[k].sections[i].content|
    requires gs[k].sections[i].content[j].active
    ensures
      var s := gs[k].sections[i];
      Written(s.content, word, at, index, DoAll(ArchiveSteps(header, cs), word, at, index, data).value, s.offset, j)
  {
    hide LaidOut, Apart, From, CommandsSteps, Segments, CommandsSize, TablesIn, Written, DoAll;
    assert gs[0..] == gs;
    CommandsStepsSpread(cs, gs, word, limit, 0, |header|);
    var n := BodyStep(cs, gs, 0, |header|, k, i);
    var rest := CommandsSteps(cs, |header|);
    var sts := [Put(Chunk(0, header))] + rest;
    assert sts == ArchiveSteps(header, cs);
    assert sts[n + 1] == rest[n];
    forall m | n + 1 < m < |sts| ensures Apart(sts[n + 1], sts[m], word) {
      assert sts[m] == rest[m - 1];
    }
    BodyStands(sts, word, at, index, data, n + 1, j);
  }

  /** The whole file is written exactly when every active blob of every section has its bytes. */
  lemma {:induction false} FileWrittenIff<R>(
    header: bytes, cs: seq<Command<R>>, gs: seq<SegmentView<R>>, word: nat, at: map<R, nat>, index: map<nat, uint32>,
    data: bytes, limit: nat)
    requires LaidOut(gs, word, limit) && AllValid(cs) && |header| + CommandsSize(cs) <= limit && TablesIn(cs, gs)
    requires Segments(cs) == gs
    ensures DoAll(ArchiveSteps(header, cs), word, at, index, data).Some? <==>
            forall k, i :: 0 <= k < |gs| && 0 <= i < |gs[k].sections| ==>
              Sayable(Body(gs[k].sections[i]), word, at, index)
  {
    hide LaidOut, Apart, CommandsSteps, Segments, CommandsSize, TablesIn, DoAll, InLinkedit, Spread;
    assert gs[0..] == gs;
    CommandsStepsSpread(cs, gs, word, limit, 0, |header|);
    var rest := CommandsSteps(cs, |header|);
    var sts := [Put(Chunk(0, header))] + rest;
    DoAllIff(sts, word, at, index, data);
    if DoAll(sts, word, at, index, data).Some? {
      forall k, i | 0 <= k < |gs| && 0 <= i < |gs[k].sections| ensures Sayable(Body(gs[k].sections[i]), word, at, index) {
        var n := BodyStep(cs, gs, 0, |header|, k, i);
        assert sts[n + 1] == rest[n];
      }
    }
    if forall k, i :: 0 <= k < |gs| && 0 <= i < |gs[k].sections| ==> Sayable(Body(gs[k].sections[i]), word, at, index) {
      forall n | 0 <= n < |sts| ensures Sayable(sts[n], word, at, index) {
        if n > 0 && sts[n].Body? {
          assert sts[n] == rest[n - 1] && From(rest[n - 1], gs, limit, 0, |gs|);
        }
      }
    }
  }
}
