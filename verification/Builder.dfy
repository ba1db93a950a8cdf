/**
 The objects of the layout pass and their `Build` methods (src/core/build.cc, src/core/section.cc,
 src/core/segment.cc, src/core/archive.cc), each proved to compute what module Layout says.
 */
module Builder {
  import opened Wrappers
  import opened Arith
  import opened Blobs
  import opened Layout
  import opened Images
  import opened Emit

  const MAX_SECT: nat := 255

  class BuildEnv {
    var loc: Location
    var segmentCounter: nat
    var sectionCounter: nat
    var dylibCounter: nat
    var lazyBindIndex: uint32

    constructor (loc: Location)
      ensures this.loc == loc && segmentCounter == sectionCounter == 0 && dylibCounter == 1 && lazyBindIndex == 0
    {
      this.loc := loc;
      segmentCounter, sectionCounter, dylibCounter, lazyBindIndex := 0, 0, 1, 0;
    }

    /** Moves only the file cursor; used for headers and for everything in __LINKEDIT. */
    method Allocate(size: nat) returns (offset: nat)
      modifies this`loc
      ensures offset == old(loc.offset) && loc == Location(old(loc.offset) + size, old(loc.vmaddr))
    {
      offset := loc.offset;
      loc := loc.(offset := loc.offset + size);
    }

    method AllocateAt(size: nat) returns (out: Location)
      modifies this`loc
      ensures out == old(loc) && loc == old(loc).Plus(size)
    {
      var offset := Allocate(size);
      out := Location(offset, loc.vmaddr);
      loc := loc.(vmaddr := loc.vmaddr + size);
    }

    method AlignTo(pow2: nat)
      modifies this`loc
      ensures loc == Align(old(loc), pow2)
    {
      loc := Location(AlignUp(loc.offset, Pow2(pow2)), AlignUp(loc.vmaddr, Pow2(pow2)));
    }

    method NewSegment()
      modifies this`loc
      ensures loc == PageAlign(old(loc))
    {
      loc := Location(AlignUp(loc.offset, PAGE_SIZE), AlignUp(loc.vmaddr, PAGE_SIZE));
    }

    /** Hands out section numbers 1 to 255; `None` is the exception for too many sections. */
    method NextSection() returns (id: Option<nat>)
      modifies this`sectionCounter
      ensures id == if old(sectionCounter) == MAX_SECT then None else Some(old(sectionCounter) + 1)
      ensures sectionCounter == if id.Some? then id.value else old(sectionCounter)
    {
      if sectionCounter == MAX_SECT {
        return None;
      }
      sectionCounter := sectionCounter + 1;
      return Some(sectionCounter);
    }

    /** Hands out segment numbers from 0. */
    method NextSegment() returns (id: nat)
      modifies this`segmentCounter
      ensures id == old(segmentCounter) && segmentCounter == old(segmentCounter) + 1
    {
      id := segmentCounter;
      segmentCounter := segmentCounter + 1;
    }

    /** The running index into the lazy binding stream, a 32-bit counter. */
    method TakeLazyBindIndex(size: nat) returns (index: uint32)
      modifies this`lazyBindIndex
      ensures index == old(lazyBindIndex) && lazyBindIndex == (old(lazyBindIndex) + size) % TWO_32
    {
      index := lazyBindIndex;
      lazyBindIndex := (lazyBindIndex + size) % TWO_32;
    }
  }

  method BuildInstruction<R>(insn: Insn<R>, active: bool, env: BuildEnv)
    returns (r: Option<(Insn<R>, Location)>)
    modifies env`loc
    ensures r.Some? <==> BuildInsn(insn, active, old(env.loc)).Some?
    ensures r.Some? ==> BuildInsn(insn, active, old(env.loc)) == Some((r.value.0, env.loc))
    ensures r.Some? ==> r.value.1 == old(env.loc)
  {
    var widened := Widen(insn);
    if widened.None? {
      return None;
    }
    var w := widened.value;
    var at := env.AllocateAt(if active then |w.buf| else 0);
    if w.imm.Some? {
      w := w.(imm := Some(w.imm.value.(offset := env.loc.offset - 4, vmaddr := env.loc.vmaddr - 4)));
    }
    return Some((w, at));
  }

  method BuildElement<R>(b: Blob<R>, word: nat, env: BuildEnv) returns (r: Option<Blob<R>>)
    modifies env`loc
    ensures r.Some? <==> BuildBlob(b, word, old(env.loc)).Some?
    ensures r.Some? ==> BuildBlob(b, word, old(env.loc)) == Some((r.value, env.loc))
  {
    match b.kind {
      case Inst(insn) =>
        var built := BuildInstruction(insn, b.active, env);
        return if built.None? then None else Some(b.(loc := built.value.1, kind := Inst(built.value.0)));
      case Stub(push, jmp, _, _, bindee) =>
        var p := BuildInstruction(push, true, env);
        if p.None? {
          return None;
        }
        var j := BuildInstruction(jmp, true, env);
        return if j.None? then None
               else Some(b.(kind := Stub(p.value.0, j.value.0, p.value.1, j.value.1, bindee)));
      case _ =>
        var at := env.AllocateAt(b.BuiltSize(word));
        return Some(b.(loc := at));
    }
  }

  class Section<R(==)> {
    const word: nat
    var align: nat
    var offset: nat
    var addr: nat
    var size: nat
    var nreloc: nat
    var reloff: nat
    var content: seq<Blob<R>>
    var id: nat

    constructor (word: nat, align: nat, nreloc: nat, content: seq<Blob<R>>)
      ensures this.word == word && View() == SectionView(align, 0, 0, 0, nreloc, 0, content)
    {
      this.word, this.align, this.nreloc, this.content := word, align, nreloc, content;
      offset, addr, size, reloff, id := 0, 0, 0, 0, 0;
    }

    /** The transforming constructor copies the header of the section and takes the new blobs. */
    constructor Copy(word: nat, v: SectionView<R>)
      ensures this.word == word && View() == v
    {
      this.word, align, nreloc, content := word, v.align, v.nreloc, v.content;
      offset, addr, size, reloff, id := v.offset, v.addr, v.size, v.reloff, 0;
    }

    function View(): SectionView<R>
      reads `align, `offset, `addr, `size, `nreloc, `reloff, `content
    {
      SectionView(align, offset, addr, size, nreloc, reloff, content)
    }

    method AssignID(env: BuildEnv) returns (ok: bool)
      modifies this`id, env`sectionCounter
      ensures ok <==> old(env.sectionCounter) != MAX_SECT
      ensures ok ==> id == env.sectionCounter == old(env.sectionCounter) + 1
    {
      var next := env.NextSection();
      if next.None? {
        return false;
      }
      id := next.value;
      return true;
    }

    method BuildContent(env: BuildEnv) returns (ok: bool)
      modifies this`content, env`loc
      ensures ok <==> PlaceAll(old(content), word, old(env.loc)).Some?
      ensures ok ==> PlaceAll(old(content), word, old(env.loc)) == Some((content, env.loc))
    {
      ghost var start, before := env.loc, content;
      var i := 0;
      assert before[0..] == before;
      PrependNil([], PlaceAll(before, word, start));
      while i < |content|
        invariant 0 <= i <= |content| == |before| && content[i..] == before[i..]
        invariant PlaceAll(before, word, start) == Prepend(content[..i], PlaceAll(before[i..], word, env.loc))
      {
        assert before[i..][1..] == before[i + 1..] && before[i..][0] == content[i];
        ghost var done := content[..i];
        var built := BuildElement(content[i], word, env);
        if built.None? {
          return false;
        }
        content := content[i := built.value];
        assert content[..i + 1] == done + [built.value];
        PrependSnoc(done, built.value, PlaceAll(before[i + 1..], word, env.loc));
        i := i + 1;
      }
      assert content[..i] == content;
      PrependNil(content, PlaceAll(before[i..], word, env.loc));
      return true;
    }

    method Build(env: BuildEnv) returns (ok: bool)
      modifies this, env`loc
      ensures id == old(id)
      ensures ok <==> BuildSection(old(View()), word, old(env.loc)).Some?
      ensures ok ==> BuildSection(old(View()), word, old(env.loc)) == Some((View(), env.loc))
    {
      hide AlignUp;
      env.AlignTo(align);
      offset, addr := env.loc.offset, env.loc.vmaddr;
      var built := BuildContent(env);
      if !built {
        return false;
      }
      size := env.loc.offset - offset;
      var relloc := env.AllocateAt(nreloc * RELOCATION_SIZE);
      reloff := relloc.offset;
      return true;
    }

    /** Writes the active blobs; `end` is where the relocations would be written. */
    method EmitContent(img: Image, at: map<R, nat>, index: map<nat, uint32>) returns (ok: bool, end: nat)
      requires word > 0 && NonEmptyCode(content) && this as object != img
      modifies img
      ensures ok <==> EmitAll(content, word, at, index, old(img.data), offset).Some?
      ensures ok ==> EmitAll(content, word, at, index, old(img.data), offset) == Some((img.data, end))
    {
      ok, end := EmitBlobs(content, word, at, index, img, offset);
    }
  }

  /** The number of a segment and those of its sections, `base` sections before it. */
  function Numbers(segment: nat, base: nat, count: nat): seq<int>
  {
    [segment] + seq(count, i => base + i + 1)
  }

  class Segment<R(==)> {
    ghost const repr: set<object>
    const word: nat
    const kind: SegmentKind
    var fileoff: nat
    var vmaddr: nat
    var filesize: nat
    var vmsize: nat
    const sections: seq<Section<R>>
    const linkedits: seq<nat>
    var id: nat

    constructor (word: nat, kind: SegmentKind, sections: seq<Section<R>>, linkedits: seq<nat>)
      requires forall i :: 0 <= i < |sections| ==> sections[i].word == word
      requires forall i, k :: 0 <= i < k < |sections| ==> sections[i] != sections[k]
      ensures Valid() && forall o :: o in repr ==> o == this || o in (set s: object | s in sections)
      ensures this.word == word && this.kind == kind && this.sections == sections && this.linkedits == linkedits
    {
      this.word, this.kind, this.sections, this.linkedits := word, kind, sections, linkedits;
      fileoff, vmaddr, filesize, vmsize, id := 0, 0, 0, 0, 0;
      repr := {this} + set s: object | s in sections;
    }

    /** The transforming constructor copies the header of the segment and takes the new sections. */
    constructor Copy(word: nat, g: SegmentView<R>, sections: seq<Section<R>>)
      requires forall i :: 0 <= i < |sections| ==> sections[i].word == word
      requires forall i, k :: 0 <= i < k < |sections| ==> sections[i] != sections[k]
      requires |sections| == |g.sections| && forall i :: 0 <= i < |sections| ==> sections[i].View() == g.sections[i]
      ensures Valid() && this.word == word && View() == g
      ensures forall o :: o in repr ==> o == this || o in (set s: object | s in sections)
    {
      this.word, kind, this.sections, linkedits := word, g.kind, sections, g.linkedits;
      fileoff, vmaddr, filesize, vmsize, id := g.fileoff, g.vmaddr, g.filesize, g.vmsize, 0;
      repr := {this} + set s: object | s in sections;
      new;
      ViewsAre(g.sections);
    }

    /** The segment owns its section objects, each once. */
    ghost predicate Valid()
    {
      && this in repr
      && (forall i :: 0 <= i < |sections| ==> sections[i] in repr && sections[i].word == word)
      && (forall i, k :: 0 <= i < k < |sections| ==> sections[i] != sections[k])
    }

    /** The numbers given to the segment and its sections. */
    ghost function Ids(): seq<int>
      requires Valid()
      reads repr
    {
      [id] + seq(|sections|, i requires 0 <= i < |sections| reads sections => sections[i].id)
    }

    function SectionViews(): seq<SectionView<R>>
      reads sections
    {
      seq(|sections|, i requires 0 <= i < |sections| reads sections => sections[i].View())
    }

    function View(): SegmentView<R>
      requires Valid()
      reads repr
    {
      SegmentView(kind, fileoff, vmaddr, filesize, vmsize, SectionViews(), linkedits)
    }

    lemma {:induction false} ViewsAre(done: seq<SectionView<R>>)
      requires |done| == |sections| && forall k :: 0 <= k < |sections| ==> sections[k].View() == done[k]
      ensures SectionViews() == done
    {
      hide Section.View;
    }

    lemma {:induction false} NoSharing()
      requires Valid()
      ensures forall i :: 0 <= i < |sections| ==> sections[i].word == word
      ensures forall i, k :: 0 <= i < k < |sections| ==> sections[i] != sections[k]
      ensures |SectionViews()| == |sections| && forall i :: 0 <= i < |sections| ==> SectionViews()[i] == sections[i].View()
    {
      hide Section.View;
    }

    /** Section numbers from the current one on; fails when they run out. */
    method NumberSections(env: BuildEnv) returns (ok: bool)
      requires Valid() && env !in repr && env.sectionCounter <= MAX_SECT
      modifies sections, env`sectionCounter
      ensures ok <==> old(env.sectionCounter) + |sections| <= MAX_SECT
      ensures ok ==> env.sectionCounter == old(env.sectionCounter) + |sections|
      ensures ok ==> forall k :: 0 <= k < |sections| ==> sections[k].id == old(env.sectionCounter) + k + 1
      ensures forall k :: 0 <= k < |sections| ==> sections[k].View() == old(sections[k].View())
    {
      NoSharing();
      hide *;
      for i := 0 to |sections|
        invariant env.sectionCounter == old(env.sectionCounter) + i <= MAX_SECT
        invariant forall k :: 0 <= k < i ==> sections[k].id == old(env.sectionCounter) + k + 1
        invariant forall k :: 0 <= k < |sections| ==> sections[k].View() == old(sections[k].View())
      {
        ok := sections[i].AssignID(env);
        if !ok {
          return;
        }
      }
      return true;
    }

    /** The next segment number, then a section number for every section. */
    method AssignID(env: BuildEnv) returns (ok: bool)
      requires Valid() && env !in repr && env.sectionCounter <= MAX_SECT
      modifies repr, env`segmentCounter, env`sectionCounter
      ensures id == old(env.segmentCounter) && env.segmentCounter == old(env.segmentCounter) + 1
      ensures ok <==> old(env.sectionCounter) + |sections| <= MAX_SECT
      ensures ok ==> env.sectionCounter == old(env.sectionCounter) + |sections|
      ensures ok ==> Ids() == Numbers(old(env.segmentCounter), old(env.sectionCounter), |sections|)
      ensures View() == old(View())
    {
      hide Section.View;
      id := env.NextSegment();
      ok := NumberSections(env);
      ViewsAre(old(SectionViews()));
    }

    method BuildAllSections(env: BuildEnv) returns (ok: bool)
      requires Valid()
      modifies sections, env`loc
      ensures forall i :: 0 <= i < |sections| ==> sections[i].id == old(sections[i].id)
      ensures ok <==> BuildSections(old(SectionViews()), word, old(env.loc)).Some?
      ensures ok ==> BuildSections(old(SectionViews()), word, old(env.loc)) == Some((SectionViews(), env.loc))
    {
      hide *;
      ghost var before, start := SectionViews(), env.loc;
      ghost var done: seq<SectionView<R>> := [];
      NoSharing();
      assert before[0..] == before;
      PrependNil(done, BuildSections(before, word, start));
      for i := 0 to |sections|
        invariant |done| == i
        invariant forall k :: 0 <= k < i ==> sections[k].View() == done[k]
        invariant forall k :: i <= k < |sections| ==> sections[k].View() == before[k]
        invariant forall k :: 0 <= k < |sections| ==> sections[k].id == old(sections[k].id)
        invariant BuildSections(before, word, start) == Prepend(done, BuildSections(before[i..], word, env.loc))
      {
        assert before[i..][1..] == before[i + 1..];
        BuildSectionsStep(before[i..], word, env.loc);
        var built := sections[i].Build(env);
        PrependNil(done, None);
        if !built {
          return false;
        }
        PrependSnoc(done, sections[i].View(), BuildSections(before[i + 1..], word, env.loc));
        done := done + [sections[i].View()];
      }
      BuildSectionsStep(before[|sections|..], word, env.loc);
      PrependNil(done, BuildSections(before[|sections|..], word, env.loc));
      ViewsAre(done);
      return true;
    }

    method Build(env: BuildEnv) returns (ok: bool)
      requires Valid() && env !in repr
      modifies repr, env`loc
      ensures Ids() == old(Ids())
      ensures ok <==> BuildSegment(old(View()), word, old(env.loc)).Some?
      ensures ok ==> BuildSegment(old(View()), word, old(env.loc)) == Some((View(), env.loc))
    {
      if kind.Linkedit? {
        BuildLinkedit(env);
        ok := true;
      } else if env.loc.vmaddr % PAGE_SIZE != 0 {
        ok := false;
      } else if kind.PageZero? {
        BuildPageZero(env);
        ok := true;
      } else {
        ok := BuildRegular(env);
      }
    }

    method BuildPageZero(env: BuildEnv)
      requires Valid() && env !in repr
      requires kind.PageZero? && env.loc.vmaddr % PAGE_SIZE == 0
      modifies this
      ensures id == old(id)
      ensures BuildSegment(old(View()), word, env.loc) == Some((View(), env.loc))
    {
      vmaddr, vmsize, fileoff, filesize := 0, env.loc.vmaddr, 0, 0;
      assert View() == old(View()).(fileoff := 0, vmaddr := 0, filesize := 0, vmsize := env.loc.vmaddr);
    }

    method BuildRegular(env: BuildEnv) returns (ok: bool)
      requires Valid() && env !in repr
      requires (kind.Text? || kind.Other?) && env.loc.vmaddr % PAGE_SIZE == 0
      modifies repr, env`loc
      ensures Ids() == old(Ids())
      ensures ok <==> BuildSegment(old(View()), word, old(env.loc)).Some?
      ensures ok ==> BuildSegment(old(View()), word, old(env.loc)) == Some((View(), env.loc))
    {
      hide AlignUp, AlignDown, FinishSegment;
      StartSegment(env);
      ghost var (start, base) := SegmentStart(kind, old(env.loc));
      assert SectionViews() == old(SectionViews()) == old(View()).sections;
      var built := BuildAllSections(env);
      if !built {
        return false;
      }
      Finish(env, old(View()));
      return true;
    }

    /** Sets where a regular segment begins. */
    method StartSegment(env: BuildEnv)
      requires Valid() && env !in repr
      requires kind.Text? || kind.Other?
      modifies this, env`loc
      ensures id == old(id)
      ensures (env.loc, Location(fileoff, vmaddr)) == SegmentStart(kind, old(env.loc))
    {
      if kind.Text? {
        var v := AlignUp(env.loc.vmaddr, PAGE_SIZE);
        fileoff, vmaddr := AlignDown(env.loc.offset, PAGE_SIZE), v;
        env.loc := Location(env.loc.offset, v + env.loc.offset % PAGE_SIZE);
      } else {
        env.NewSegment();
        fileoff, vmaddr := env.loc.offset, env.loc.vmaddr;
      }
    }

    /** Rounds both cursors up to a page and records the sizes. */
    method Finish(env: BuildEnv, ghost g: SegmentView<R>)
      requires Valid() && env !in repr
      requires fileoff <= env.loc.offset && vmaddr <= env.loc.vmaddr
      requires g.kind == kind && g.linkedits == linkedits
      modifies this, env`loc
      ensures id == old(id)
      ensures (View(), env.loc) ==
              FinishSegment(g, Location(old(fileoff), old(vmaddr)), old(SectionViews()), old(env.loc))
    {
      env.NewSegment();
      filesize := env.loc.offset - fileoff;
      vmsize := AlignUp(env.loc.vmaddr - vmaddr, PAGE_SIZE);
      assert SectionViews() == old(SectionViews());
    }

    /** Segment_LINKEDIT::Build: only the file cursor moves over the link-edit tables. */
    method BuildLinkedit(env: BuildEnv)
      requires Valid() && env !in repr
      requires kind.Linkedit?
      modifies this, env`loc
      ensures id == old(id)
      ensures BuildSegment(old(View()), word, old(env.loc)) == Some((View(), env.loc))
    {
      env.NewSegment();
      fileoff, vmaddr := env.loc.offset, env.loc.vmaddr;
      ghost var start := env.loc;
      for i := 0 to |linkedits|
        invariant env.loc.vmaddr == start.vmaddr && fileoff == start.offset && vmaddr == start.vmaddr && id == old(id)
        invariant env.loc.offset + Sum(linkedits[i..]) == start.offset + Sum(linkedits)
      {
        var at := env.Allocate(linkedits[i]);
        assert linkedits[i..][1..] == linkedits[i + 1..];
      }
      env.loc := env.loc.(vmaddr := AlignUp(env.loc.vmaddr, PAGE_SIZE));
      filesize := env.loc.offset - fileoff;
      vmsize := AlignUp(filesize, PAGE_SIZE);
      assert SectionViews() == old(SectionViews());
    }

    method TryOffsetToVmaddr(at: nat) returns (r: Option<nat>)
      ensures r == SectionLookup(SectionViews(), at)
    {
      for i := 0 to |sections|
        invariant SectionLookup(SectionViews(), at) == SectionLookup(SectionViews()[i..], at)
      {
        assert SectionViews()[i..][1..] == SectionViews()[i + 1..];
        var s := sections[i];
        if s.offset <= at < s.offset + s.size {
          return Some(at - s.offset + s.addr);
        }
      }
      return None;
    }
  }

  method CopySections<R(==)>(word: nat, vs: seq<SectionView<R>>) returns (ss: seq<Section<R>>)
    ensures |ss| == |vs| && forall i :: 0 <= i < |ss| ==> fresh(ss[i]) && ss[i].word == word && ss[i].View() == vs[i]
    ensures forall i, k :: 0 <= i < k < |ss| ==> ss[i] != ss[k]
  {
    ss := [];
    for n := 0 to |vs|
      invariant |ss| == n && forall i :: 0 <= i < n ==> fresh(ss[i]) && ss[i].word == word && ss[i].View() == vs[i]
      invariant forall i, k :: 0 <= i < k < n ==> ss[i] != ss[k]
    {
      var next := new Section.Copy(word, vs[n]);
      ss := ss + [next];
    }
  }

  method CopySegments<R(==)>(word: nat, gs: seq<SegmentView<R>>) returns (segments: seq<Segment<R>>)
    ensures |segments| == |gs|
    ensures forall i :: 0 <= i < |gs| ==>
      segments[i].Valid() && fresh(segments[i].repr) && segments[i].word == word && segments[i].View() == gs[i]
    ensures forall i, k :: 0 <= i < k < |gs| ==> segments[i].repr !! segments[k].repr
  {
    segments := [];
    for n := 0 to |gs|
      invariant |segments| == n
      invariant forall i :: 0 <= i < n ==>
        segments[i].Valid() && fresh(segments[i].repr) && segments[i].word == word && segments[i].View() == gs[i]
      invariant forall i, k :: 0 <= i < k < n ==> segments[i].repr !! segments[k].repr
    {
      var sections := CopySections(word, gs[n].sections);
      var next := new Segment.Copy(word, gs[n], sections);
      segments := segments + [next];
    }
  }

  class Archive<R(==)> {
    ghost const repr: set<object>
    const word: nat
    const segments: seq<Segment<R>>
    const headerSize: nat
    const commandsSize: nat
    const vmaddr: nat
    var totalSize: nat

    constructor (word: nat, segments: seq<Segment<R>>, headerSize: nat, commandsSize: nat, vmaddr: nat)
      requires forall i :: 0 <= i < |segments| ==> segments[i].Valid() && segments[i].word == word
      requires forall i, k :: 0 <= i < |segments| && 0 <= k < |segments| && i != k ==>
        segments[i].repr !! segments[k].repr
      ensures Valid() && this.word == word && this.segments == segments && this.headerSize == headerSize
      ensures this.commandsSize == commandsSize && this.vmaddr == vmaddr
      ensures forall o :: o in repr ==> exists i :: 0 <= i < |segments| && o in segments[i].repr
    {
      this.word, this.segments, this.headerSize, this.commandsSize := word, segments, headerSize, commandsSize;
      this.vmaddr, totalSize := vmaddr, 0;
      repr := set i, o | 0 <= i < |segments| && o in segments[i].repr :: o;
    }

    /** What the segments look like, for the tables and the output. */
    method Views() returns (gs: seq<SegmentView<R>>)
      requires Valid()
      ensures Shows(gs)
    {
      hide Segment.View, Segment.Valid;
      gs := [];
      for n := 0 to |segments|
        invariant |gs| == n && forall i :: 0 <= i < n ==> segments[i].View() == gs[i]
      {
        gs := gs + [segments[n].View()];
      }
    }

    /** The archive owns its segments, and no object belongs to two of them. */
    ghost predicate Valid()
    {
      && this !in repr
      && (forall i :: 0 <= i < |segments| ==>
            segments[i].Valid() && segments[i].word == word && segments[i].repr <= repr)
      && (forall i, k :: 0 <= i < |segments| && 0 <= k < |segments| && i != k ==>
            segments[i].repr !! segments[k].repr)
    }

    /** `gs` describes the current state of every segment. */
    ghost predicate Shows(gs: seq<SegmentView<R>>)
      requires Valid()
      reads repr
    {
      |gs| == |segments| && forall i :: 0 <= i < |segments| ==> segments[i].View() == gs[i]
    }

    /** Where the first segment is built: headers and load commands move only the file cursor. */
    function Start(offset: nat): Location
    {
      Location(offset + headerSize + commandsSize, vmaddr)
    }

    /** How many sections the first `n` segments have. */
    function SectionsBefore(n: nat): nat
      requires n <= |segments|
    {
      if n == 0 then 0 else SectionsBefore(n - 1) + |segments[n - 1].sections|
    }

    lemma {:induction false} SectionsBeforeMonotone(m: nat, n: nat)
      requires m <= n <= |segments|
      ensures SectionsBefore(m) <= SectionsBefore(n)
      decreases n
    {
      if m == n {
      } else {
        SectionsBeforeMonotone(m, n - 1);
      }
    }

    /** Segments numbered from 0 and sections from 1 through the whole archive. */
    ghost predicate Numbered(n: nat)
      requires Valid() && n <= |segments|
      reads repr
    {
      forall k :: 0 <= k < n ==> segments[k].Ids() == Numbers(k, SectionsBefore(k), |segments[k].sections|)
    }

    lemma {:induction false} SectionsStep(n: nat)
      requires n < |segments|
      ensures SectionsBefore(n + 1) == SectionsBefore(n) + |segments[n].sections|
    {
    }

    /** What a change to one segment leaves alone. */
    lemma {:induction false} Owns(n: nat)
      requires Valid() && n < |segments|
      ensures segments[n].Valid() && segments[n].word == word && segments[n].repr <= repr
      ensures forall k :: 0 <= k < |segments| ==> segments[k].Valid() && segments[k].repr <= repr
      ensures forall k :: 0 <= k < |segments| && k != n ==> segments[k].repr !! segments[n].repr
    {
    }

    method AssignOne(n: nat, env: BuildEnv, ghost gs: seq<SegmentView<R>>) returns (ok: bool)
      requires Valid() && env !in repr && Shows(gs) && n < |segments| && Numbered(n)
      requires env.segmentCounter == n && env.sectionCounter == SectionsBefore(n) <= MAX_SECT
      modifies segments[n].repr, env`segmentCounter, env`sectionCounter
      ensures Shows(gs) && (ok <==> SectionsBefore(n + 1) <= MAX_SECT)
      ensures ok ==> Numbered(n + 1) && env.segmentCounter == n + 1 && env.sectionCounter == SectionsBefore(n + 1)
    {
      hide *;
      Owns(n);
      SectionsStep(n);
      ShowsIs(gs);
      NumberedIs(n);
      ok := segments[n].AssignID(env);
      forall k | 0 <= k < |segments| && k != n
        ensures segments[k].Ids() == old(segments[k].Ids()) && segments[k].View() == old(segments[k].View())
      {
        assert segments[k].repr !! segments[n].repr && env !in segments[k].repr;
      }
      ShowsIs(gs);
      if ok {
        NumberedIs(n + 1);
      }
    }

    lemma {:induction false} ShowsIs(gs: seq<SegmentView<R>>)
      requires Valid()
      ensures forall k :: 0 <= k < |segments| ==> segments[k].Valid()
      ensures Shows(gs) <==> |gs| == |segments| && forall i :: 0 <= i < |segments| ==> segments[i].View() == gs[i]
    {
      hide Segment.View;
    }

    lemma {:induction false} NumberedIs(n: nat)
      requires Valid() && n <= |segments|
      ensures forall k :: 0 <= k < |segments| ==> segments[k].Valid()
      ensures Numbered(n) <==>
        forall k :: 0 <= k < n ==> segments[k].Ids() == Numbers(k, SectionsBefore(k), |segments[k].sections|)
    {
      hide Segment.Ids, SectionsBefore, Numbers;
    }

    /** The numbering pass: fails exactly when there are more than 255 sections. */
    method AssignIDs(env: BuildEnv, ghost gs: seq<SegmentView<R>>) returns (ok: bool)
      requires Valid() && env !in repr && Shows(gs) && env.segmentCounter == env.sectionCounter == 0
      modifies repr, env`segmentCounter, env`sectionCounter
      ensures ok <==> SectionsBefore(|segments|) <= MAX_SECT
      ensures ok ==> Numbered(|segments|) && Shows(gs)
    {
      NoneNumbered();
      hide Numbered, Shows;
      for n := 0 to |segments|
        invariant Shows(gs) && Numbered(n)
        invariant env.segmentCounter == n && env.sectionCounter == SectionsBefore(n) <= MAX_SECT
      {
        SectionsBeforeMonotone(n + 1, |segments|);
        ok := AssignOne(n, env, gs);
        if !ok {
          return;
        }
      }
      return true;
    }

    lemma {:induction false} NoneNumbered()
      requires Valid()
      ensures Numbered(0) && SectionsBefore(0) == 0
    {
    }

    method BuildOne(i: nat, env: BuildEnv, ghost gs: seq<SegmentView<R>>)
      returns (ok: bool, ghost g: SegmentView<R>)
      requires Valid() && env !in repr && Shows(gs) && i < |segments|
      modifies segments[i].repr, env`loc
      ensures old(Numbered(|segments|)) ==> Numbered(|segments|)
      ensures |gs| == |segments| && (ok <==> BuildSegment(gs[i], word, old(env.loc)).Some?)
      ensures ok ==> BuildSegment(gs[i], word, old(env.loc)) == Some((g, env.loc)) && Shows(gs[i := g])
    {
      Owns(i);
      hide Valid, Segment.Valid, Segment.View, Segment.Ids, Numbers, BuildSegment;
      ok := segments[i].Build(env);
      g := segments[i].View();
      forall k | 0 <= k < |segments| && k != i
        ensures segments[k].Ids() == old(segments[k].Ids()) && segments[k].View() == old(segments[k].View())
      {
        assert segments[k].repr !! segments[i].repr && env !in segments[k].repr;
      }
    }

    method BuildAllSegments(env: BuildEnv, ghost before: seq<SegmentView<R>>)
      returns (ok: bool, ghost after: seq<SegmentView<R>>)
      requires Valid() && env !in repr && Shows(before)
      modifies repr, env`loc
      ensures old(Numbered(|segments|)) ==> Numbered(|segments|)
      ensures ok <==> BuildSegments(before, word, old(env.loc)).Some?
      ensures ok ==> BuildSegments(before, word, old(env.loc)) == Some((after, env.loc)) && Shows(after)
    {
      hide *;
      ghost var start := env.loc;
      after := [];
      ShowsLength(before);
      assert before[0..] == before && [] + before == before;
      PrependNil(after, BuildSegments(before, word, start));
      for i := 0 to |segments|
        invariant |after| == i && Shows(after + before[i..])
        invariant old(Numbered(|segments|)) ==> Numbered(|segments|)
        invariant BuildSegments(before, word, start) == Prepend(after, BuildSegments(before[i..], word, env.loc))
      {
        ghost var now := after + before[i..];
        ghost var g;
        assert before[i..][1..] == before[i + 1..] && before[i..][0] == now[i];
        BuildSegmentsStep(before[i..], word, env.loc);
        PrependNil(after, None);
        Owns(i);
        ok, g := BuildOne(i, env, now);
        if !ok {
          return false, [];
        }
        PrependSnoc(after, g, BuildSegments(before[i + 1..], word, env.loc));
        assert now[i := g] == after + [g] + before[i + 1..];
        after := after + [g];
      }
      assert after + before[|segments|..] == after;
      BuildSegmentsStep(before[|segments|..], word, env.loc);
      PrependNil(after, BuildSegments(before[|segments|..], word, env.loc));
      return true, after;
    }

    lemma {:induction false} ShowsLength(gs: seq<SegmentView<R>>)
      requires Valid() && Shows(gs)
      ensures |gs| == |segments|
    {
    }

    /** Archive::Build: `before` and `after` show the segments before and after. */
    method Build(offset: nat, ghost before: seq<SegmentView<R>>)
      returns (total: Option<nat>, ghost after: seq<SegmentView<R>>, ghost end: Location)
      requires Valid() && Shows(before)
      modifies this`totalSize, repr
      ensures total.Some? <==>
        SectionsBefore(|segments|) <= MAX_SECT && BuildSegments(before, word, Start(offset)).Some?
      ensures total.Some? ==> BuildSegments(before, word, Start(offset)) == Some((after, end)) && Shows(after)
      ensures total.Some? ==> Numbered(|segments|)
      ensures total.Some? ==> total.value == totalSize && end.offset == offset + totalSize
    {
      hide BuildSegments, Numbered, Shows, SectionsBefore;
      var env := new BuildEnv(Location(offset, vmaddr));
      var header := env.Allocate(headerSize);
      var commands := env.Allocate(commandsSize);
      end := env.loc;
      var numbered := AssignIDs(env, before);
      if !numbered {
        return None, [], end;
      }
      var built;
      built, after := BuildAllSegments(env, before);
      end := env.loc;
      if !built {
        return None, after, end;
      }
      totalSize := env.loc.offset - offset;
      return Some(totalSize), after, end;
    }

    method TryOffsetToVmaddr(at: nat, ghost gs: seq<SegmentView<R>>) returns (r: Option<nat>)
      requires Valid() && Shows(gs)
      ensures r == SegmentLookup(gs, at)
    {
      for i := 0 to |segments|
        invariant SegmentLookup(gs, at) == SegmentLookup(gs[i..], at)
      {
        assert gs[i..][1..] == gs[i + 1..];
        var g := segments[i];
        assert gs[i..][0] == g.View();
        if g.fileoff <= at < g.fileoff + g.filesize {
          r := g.TryOffsetToVmaddr(at);
          return;
        }
      }
      return None;
    }
  }
}
