/**
 Every reference still reaches the same program point: what a branch, a rip-relative operand or a pointer word of
 the emitted image leads to is the new place of the blob the i386 original referred to.
 */
module References {
  import opened Wrappers
  import opened Blobs
  import opened Layout
  import opened Emit
  import opened Opcodes
  import opened Placeholders
  import opened Translate
  import opened Link

  const WORD: nat := 8

  // ----- where the blobs made from one blob stand in the new section -----

  /** Index of the first blob made from blob `x`. */
  function Pos(content: Content, stubs: bool, x: nat): nat
    requires ExpandAll(content, stubs).Ok? && x <= |content|
    decreases x
  {
    if x == 0 then 0 else |Expand(content[0], stubs).value| + Pos(content[1..], stubs, x - 1)
  }

  lemma {:induction false} ExpandStep(content: Content, stubs: bool)
    requires ExpandAll(content, stubs).Ok? && content != []
    ensures Expand(content[0], stubs).Ok? && ExpandAll(content[1..], stubs).Ok?
    ensures ExpandAll(content, stubs).value == Expand(content[0], stubs).value + ExpandAll(content[1..], stubs).value
  {
    hide Expand;
  }

  lemma {:induction false} PosStep(content: Content, stubs: bool, x: nat)
    requires ExpandAll(content, stubs).Ok? && x < |content|
    ensures Expand(content[0], stubs).Ok? && ExpandAll(content[1..], stubs).Ok?
    ensures Pos(content, stubs, x + 1) == |Expand(content[0], stubs).value| + Pos(content[1..], stubs, x)
    ensures Pos(content, stubs, 0) == 0
  {
    hide Expand;
  }

  lemma {:induction false} PosRoot(content: Content, stubs: bool)
    requires ExpandAll(content, stubs).Ok?
    ensures Pos(content, stubs, 0) == 0
  {
  }

  lemma {:induction false} PosFacts(content: Content, stubs: bool, x: nat)
    requires ExpandAll(content, stubs).Ok? && x < |content|
    ensures Expand(content[x], stubs).Ok?
    ensures Pos(content, stubs, x + 1) == Pos(content, stubs, x) + |Expand(content[x], stubs).value|
    ensures Pos(content, stubs, x + 1) <= |ExpandAll(content, stubs).value|
    ensures forall k :: 0 <= k < |Expand(content[x], stubs).value| ==>
      ExpandAll(content, stubs).value[Pos(content, stubs, x) + k] == Expand(content[x], stubs).value[k]
    decreases x
  {
    hide *;
    ExpandStep(content, stubs);
    PosStep(content, stubs, x);
    if x > 0 {
      PosFacts(content[1..], stubs, x - 1);
      PosStep(content, stubs, x - 1);
    } else {
      PosRoot(content[1..], stubs);
    }
  }

  lemma {:induction false} PosEnd(content: Content, stubs: bool)
    requires ExpandAll(content, stubs).Ok?
    ensures Pos(content, stubs, |content|) == |ExpandAll(content, stubs).value|
    decreases |content|
  {
    if content == [] {
    } else {
      PosEnd(content[1..], stubs);
    }
  }

  /** Every new blob comes from some old one. */
  lemma {:induction false} PosInverse(content: Content, stubs: bool, r: nat) returns (x: nat, k: nat)
    requires ExpandAll(content, stubs).Ok? && r < |ExpandAll(content, stubs).value|
    ensures x < |content| && Expand(content[x], stubs).Ok? && k < |Expand(content[x], stubs).value|
    ensures r == Pos(content, stubs, x) + k
    ensures ExpandAll(content, stubs).value[r] == Expand(content[x], stubs).value[k]
    decreases |content|
  {
    hide Expand;
    var n := |Expand(content[0], stubs).value|;
    if r < n {
      x, k := 0, r;
    } else {
      x, k := PosInverse(content[1..], stubs, r - n);
      x := x + 1;
    }
  }

  lemma {:induction false} ExpandIds(b: Blob<Ref>, stubs: bool, k: nat)
    requires Expand(b, stubs).Ok? && k < |Expand(b, stubs).value|
    ensures Expand(b, stubs).value[k].id == Made(b.id, k)
  {
  }

  // ----- the compiled archive -----

  function NewContent(parts: seq<Part>, i: nat): Content
    requires Translatable(parts) && i < |parts|
  {
    LinkAll(ExpandAll(parts[i].content, parts[i].stubs).value, Cells(parts))
  }

  function BaseOf(s: SectionView<Ref>): Location
  {
    Location(s.offset, s.addr)
  }

  /** `built` are the sections of `parts`, translated, linked and laid out wherever the layout pass put them. */
  ghost predicate Compiled(parts: seq<Part>, built: seq<SectionView<Ref>>)
  {
    && Translatable(parts) && Distinct(parts) && |built| == |parts|
    && forall i :: 0 <= i < |parts| ==>
         var placed := PlaceAll(NewContent(parts, i), WORD, BaseOf(built[i]));
         placed.Some? && placed.value.0 == built[i].content
  }

  /** `at` gives the final vmaddr of every blob. */
  ghost predicate Describes(at: map<Ref, nat>, built: seq<SectionView<Ref>>)
  {
    forall i, r :: 0 <= i < |built| && 0 <= r < |built[i].content| ==>
      var b := built[i].content[r];
      b.id in at && at[b.id] == b.Start().vmaddr
  }

  /** The built form of the `k`-th blob made from blob `x` of section `i`. */
  function Final(parts: seq<Part>, built: seq<SectionView<Ref>>, i: nat, x: nat, k: nat): Blob<Ref>
    requires Compiled(parts, built) && i < |parts| && x < |parts[i].content|
    requires Expand(parts[i].content[x], parts[i].stubs).Ok?
    requires k < |Expand(parts[i].content[x], parts[i].stubs).value|
  {
    PosFacts(parts[i].content, parts[i].stubs, x);
    built[i].content[Pos(parts[i].content, parts[i].stubs, x) + k]
  }

  /** It is the forwarded blob, built where it stands, and named after its origin. */
  lemma {:induction false} FinalIs(parts: seq<Part>, built: seq<SectionView<Ref>>, at: map<Ref, nat>, i: nat, x: nat, k: nat)
    requires Compiled(parts, built) && Describes(at, built) && i < |parts| && x < |parts[i].content|
    requires Expand(parts[i].content[x], parts[i].stubs).Ok?
    requires k < |Expand(parts[i].content[x], parts[i].stubs).value|
    ensures
      var b := Final(parts, built, i, x, k);
      var o := Expand(parts[i].content[x], parts[i].stubs).value[k];
      && b.id == o.id == Made(parts[i].content[x].id, k)
      && b.id in at && at[b.id] == b.Start().vmaddr
      && BuildBlob(ForwardBlob(o, AllIds(parts)), WORD, b.Start()) == Some((b, b.Start().Plus(b.BuiltSize(WORD))))
  {
    hide Expand, ExpandAll, BuildBlob, ForwardBlob, LinkBlob, PlaceAll;
    var content, stubs := parts[i].content, parts[i].stubs;
    PosFacts(content, stubs, x);
    ExpandIds(content[x], stubs, k);
    var o := Expand(content[x], stubs).value[k];
    LinkForwards(parts, i, x, k, o);
    var r := Pos(content, stubs, x) + k;
    PlacedAt(NewContent(parts, i), WORD, BaseOf(built[i]), r);
    TotalSplit(built[i].content, WORD, r);
    KeepsId(o, AllIds(parts));
  }

  lemma {:induction false} KeepsId(o: Blob<Ref>, ids: set<Ref>)
    ensures ForwardBlob(o, ids).id == o.id && ForwardBlob(o, ids).active == o.active
  {
  }

  /** Consecutive blobs of a section: the next starts where this one ends. */
  lemma {:induction false} FinalNext(parts: seq<Part>, built: seq<SectionView<Ref>>, i: nat, r: nat)
    requires Compiled(parts, built) && i < |parts| && r + 1 < |built[i].content|
    ensures built[i].content[r + 1].Start() == built[i].content[r].Start().Plus(built[i].content[r].BuiltSize(WORD))
  {
    PlacedAt(NewContent(parts, i), WORD, BaseOf(built[i]), r);
    PlacedAt(NewContent(parts, i), WORD, BaseOf(built[i]), r + 1);
    TotalSplit(built[i].content, WORD, r);
  }

  lemma {:induction false} MarkExpands(b: Blob<Ref>, stubs: bool)
    requires b.kind.Placeholder?
    ensures Expand(b, stubs) == Ok([New(b.id, 0, Placeholder)])
  {
    assert Kinds(b, stubs) == Ok([b.kind]);
    var bs := Number(b.id, 0, [b.kind]);
    assert bs[0] == New(b.id, 0, Placeholder) && bs == [bs[0]];
  }

  lemma {:induction false} MarkIsEmpty(b: Blob<Ref>, ids: set<Ref>, loc: Location)
    requires b.kind.Placeholder?
    ensures BuildBlob(ForwardBlob(b, ids), WORD, loc) == Some((b.(loc := loc), loc))
  {
  }

  /** The blob made from a placeholder takes no bytes. */
  lemma {:induction false} FinalMark(
    parts: seq<Part>, built: seq<SectionView<Ref>>, at: map<Ref, nat>, i: nat, q: nat)
    requires Compiled(parts, built) && Describes(at, built) && i < |parts| && q < |parts[i].content|
    requires parts[i].content[q].kind.Placeholder?
    ensures
      var r := Pos(parts[i].content, parts[i].stubs, q);
      && r + 1 == Pos(parts[i].content, parts[i].stubs, q + 1) && r < |built[i].content|
      && built[i].content[r].BuiltSize(WORD) == 0
      && Made(parts[i].content[q].id, 0) in at
      && at[Made(parts[i].content[q].id, 0)] == built[i].content[r].Start().vmaddr
  {
    var content, stubs := parts[i].content, parts[i].stubs;
    PosFacts(content, stubs, q);
    MarkExpands(content[q], stubs);
    FinalIs(parts, built, at, i, q, 0);
    var b := Final(parts, built, i, q, 0);
    hide *;
    MarkIsEmpty(New(content[q].id, 0, Placeholder), AllIds(parts), b.Start());
  }

  lemma {:induction false} FinalAt(
    parts: seq<Part>, built: seq<SectionView<Ref>>, at: map<Ref, nat>, i: nat, x: nat)
    requires Compiled(parts, built) && Describes(at, built) && i < |parts| && x < |parts[i].content|
    ensures ExpandAll(parts[i].content, parts[i].stubs).Ok? && |built| == |parts|
    ensures
      var r := Pos(parts[i].content, parts[i].stubs, x);
      && r < |built[i].content|
      && Made(parts[i].content[x].id, 0) in at
      && at[Made(parts[i].content[x].id, 0)] == built[i].content[r].Start().vmaddr
  {
    PosFacts(parts[i].content, parts[i].stubs, x);
    FinalIs(parts, built, at, i, x, 0);
  }

  /** A placeholder has the address of the first blob made from the blob that follows it. */
  lemma {:induction false} MarkMeetsNext(
    parts: seq<Part>, built: seq<SectionView<Ref>>, at: map<Ref, nat>, i: nat, q: nat)
    requires Compiled(parts, built) && Describes(at, built) && i < |parts| && q + 1 < |parts[i].content|
    requires parts[i].content[q].kind.Placeholder?
    ensures Made(parts[i].content[q].id, 0) in at && Made(parts[i].content[q + 1].id, 0) in at
    ensures at[Made(parts[i].content[q].id, 0)] == at[Made(parts[i].content[q + 1].id, 0)]
  {
    hide *;
    var content, stubs := parts[i].content, parts[i].stubs;
    FinalMark(parts, built, at, i, q);
    FinalAt(parts, built, at, i, q + 1);
    FinalNext(parts, built, i, Pos(content, stubs, q));
  }

  // ----- targets -----

  lemma {:induction false} InterleavedAt(content: Content, ps: seq<nat>, y: nat) returns (q: nat)
    requires y < |content| && content[y].loc.vmaddr in ps
    ensures q + 1 < |Interleave(content, ps)|
    ensures Interleave(content, ps)[q] == Mark(content[y].loc.vmaddr)
    ensures Interleave(content, ps)[q + 1] == content[y]
  {
    if y == 0 {
      q := 0;
    } else {
      q := InterleavedAt(content[1..], ps, y - 1);
      q := q + if content[0].loc.vmaddr in ps then 2 else 1;
    }
  }

  /** A section as read, before placeholders are merged into it. */
  datatype Source = Source(content: Content, addr: nat, size: nat, stubs: bool)

  ghost predicate WellRead(s: Source, word: nat)
  {
    Tiles(s.content, word, s.addr, s.size)
  }

  /** The merged content, with the placeholder for the end of the section if it goes here. */
  function Merged(s: Source, ps: seq<nat>, atEnd: bool): Content
  {
    Interleave(s.content, ps) + if atEnd then [Mark(s.addr + s.size)] else []
  }

  predicate Inside(s: Source, p: nat)
  {
    s.addr <= p < s.addr + s.size
  }

  /** The placeholder for the end of section `i` goes to it: the address is in no section, and no earlier one ends there. */
  ghost predicate TakesEnd(src: seq<Source>, ps: seq<nat>, i: nat)
    requires i < |src|
  {
    var end := src[i].addr + src[i].size;
    && end in ps && (forall j :: 0 <= j < |src| ==> !Inside(src[j], end))
    && forall j :: 0 <= j < i ==> src[j].addr + src[j].size != end
  }

  /** `parts` are the sections of `src` after all placeholders `ps` are placed. */
  ghost predicate Placed(src: seq<Source>, ps: seq<nat>, parts: seq<Part>)
  {
    && |parts| == |src|
    && forall i :: 0 <= i < |src| ==>
         parts[i].stubs == src[i].stubs && parts[i].content == Merged(src[i], ps, TakesEnd(src, ps, i))
  }

  /** Sections as read, in ranges that do not overlap. */
  ghost predicate AllRead(src: seq<Source>)
  {
    && (forall i :: 0 <= i < |src| ==> WellRead(src[i], 4))
    && (forall i, j, p :: 0 <= i < |src| && 0 <= j < |src| && Inside(src[i], p) && Inside(src[j], p) ==> i == j)
  }

  /** A placeholder can be placed: it starts a blob of its section, or lies in no section and ends one. */
  ghost predicate Placeable(src: seq<Source>, p: nat)
  {
    if exists i :: 0 <= i < |src| && Inside(src[i], p) then
      exists i :: 0 <= i < |src| && Inside(src[i], p) && Starts(src[i].content, p)
    else
      exists i :: 0 <= i < |src| && p == src[i].addr + src[i].size
  }

  lemma {:induction false} ReadInside(s: Source, ps: seq<nat>, qs: seq<nat>)
    requires WellRead(s, 4) && forall p :: Inside(s, p) ==> (p in ps <==> p in qs)
    ensures Sorted(s.content) && (forall i :: 0 <= i < |s.content| ==> Inside(s, s.content[i].loc.vmaddr))
    ensures Interleave(s.content, ps) == Interleave(s.content, qs)
  {
    TilesSorted(s.content, 4, s.addr, s.size);
    forall i | 0 <= i < |s.content| ensures Inside(s, s.content[i].loc.vmaddr) {
      TilesBounds(s.content, 4, s.addr, s.size, i);
    }
    InterleaveAgrees(s.content, ps, qs);
  }

  /** The Parse2 phase over all sections. */
  method MergeSections(src: seq<Source>, env: ParseEnv) returns (r: Result<seq<Content>>)
    requires Ascending(env.placeholders) && AllRead(src)
    modifies env
    ensures r.Ok? <==> forall p, i :: p in old(env.placeholders) && 0 <= i < |src| && Inside(src[i], p) ==>
      Starts(src[i].content, p)
    ensures r.Ok? ==> Ascending(env.placeholders) && |r.value| == |src|
    ensures r.Ok? ==> forall i :: 0 <= i < |src| ==> r.value[i] == Merged(src[i], old(env.placeholders), false)
    ensures r.Ok? ==> forall p :: p in env.placeholders <==>
      p in old(env.placeholders) && forall i :: 0 <= i < |src| ==> !Inside(src[i], p)
  {
    ghost var ps := env.placeholders;
    var out: seq<Content> := [];
    for n := 0 to |src|
      invariant Ascending(env.placeholders) && |out| == n
      invariant forall i :: 0 <= i < n ==> out[i] == Merged(src[i], ps, false)
      invariant forall p, i :: p in ps && 0 <= i < n && Inside(src[i], p) ==> Starts(src[i].content, p)
      invariant forall p :: p in env.placeholders <==> p in ps && forall i :: 0 <= i < n ==> !Inside(src[i], p)
    {
      hide Starts, Interleave, Ascending, WellRead, Sorted;
      ReadInside(src[n], env.placeholders, ps);
      var merged := env.Parse2(src[n].content, src[n].addr, src[n].size);
      if merged.Err? {
        return Err(merged.reason);
      }
      assert merged.value == Merged(src[n], ps, false);
      out := out + [merged.value];
    }
    return Ok(out);
  }

  lemma {:induction false} WithoutAt(ps: seq<nat>, k: nat)
    requires Ascending(ps) && k < |ps|
    ensures var rest := ps[..k] + ps[k + 1..];
      Ascending(rest) && forall p :: p in rest <==> p in ps && p != ps[k]
  {
    assert ps == ps[..k] + [ps[k]] + ps[k + 1..];
  }

  /** Takes the placeholder for `end` out of the map, if there is one. */
  method TakeEnd(env: ParseEnv, end: nat) returns (found: bool)
    requires Ascending(env.placeholders)
    modifies env
    ensures Ascending(env.placeholders) && (found <==> end in old(env.placeholders))
    ensures forall p :: p in env.placeholders <==> p in old(env.placeholders) && p != end
  {
    found := false;
    var k := 0;
    ghost var ps := env.placeholders;
    while k < |env.placeholders|
      invariant k <= |env.placeholders| && Ascending(env.placeholders)
      invariant forall i :: 0 <= i < k ==> env.placeholders[i] != end
      invariant forall p :: p in env.placeholders ==> p in ps
      invariant forall p :: p in ps && p != end ==> p in env.placeholders
      invariant found ==> end in ps && end !in env.placeholders
      invariant !found ==> env.placeholders == ps
      decreases |env.placeholders| - k
    {
      var now := env.placeholders;
      if now[k] == end {
        found := true;
        env.placeholders := now[..k] + now[k + 1..];
        WithoutAt(now, k);
      } else {
        k := k + 1;
      }
    }
  }

  // ----- identities stay distinct -----

  /** Everything in a merged list is a blob of the section or the mark of one. */
  lemma {:induction false} InterleaveOrigin(content: Content, ps: seq<nat>, q: nat) returns (y: nat)
    requires q < |Interleave(content, ps)|
    ensures y < |content|
    ensures Interleave(content, ps)[q] == content[y] || Interleave(content, ps)[q] == Mark(content[y].loc.vmaddr)
    decreases |content|
  {
    var n := if content[0].loc.vmaddr in ps then 2 else 1;
    if q < n {
      y := 0;
    } else {
      y := InterleaveOrigin(content[1..], ps, q - n);
      y := y + 1;
    }
  }

  /** Blobs named by their addresses. */
  ghost predicate Named(content: Content)
  {
    forall i :: 0 <= i < |content| ==> content[i].id == BlobAt(content[i].loc.vmaddr)
  }

  lemma {:induction false} InterleaveStep(content: Content, ps: seq<nat>)
    ensures content == [] ==> Interleave(content, ps) == [] && DistinctIds(Interleave(content, ps))
    ensures content != [] ==>
      var b, rest := content[0], [content[0]] + Interleave(content[1..], ps);
      Interleave(content, ps) == if b.loc.vmaddr in ps then [Mark(b.loc.vmaddr)] + rest else rest
  {
    if content != [] {
      var m, b, rest := Mark(content[0].loc.vmaddr), content[0], Interleave(content[1..], ps);
      assert [m] + [b] + rest == [m] + ([b] + rest);
      assert [] + [b] + rest == [b] + rest;
    }
  }

  lemma {:induction false} NamedTail(content: Content)
    requires Sorted(content) && Named(content) && content != []
    ensures Sorted(content[1..]) && Named(content[1..])
    ensures content[0].id == BlobAt(content[0].loc.vmaddr) && Mark(content[0].loc.vmaddr).id != content[0].id
  {
  }

  lemma {:induction false} LaterDiffers(content: Content, y: nat)
    requires Sorted(content) && Named(content) && 0 < y < |content|
    ensures
      var a, b, m := content[0], content[y], Mark(content[y].loc.vmaddr);
      && b.id != a.id && b.id != Mark(a.loc.vmaddr).id && m.id != a.id && m.id != Mark(a.loc.vmaddr).id
  {
    assert content[0].loc.vmaddr < content[y].loc.vmaddr;
  }

  lemma {:induction false} InterleaveDistinct(content: Content, ps: seq<nat>)
    requires Sorted(content) && Named(content)
    ensures DistinctIds(Interleave(content, ps))
    decreases |content|
  {
    hide *;
    InterleaveStep(content, ps);
    if content == [] {
    } else {
      NamedTail(content);
      InterleaveDistinct(content[1..], ps);
      var b, rest := content[0], Interleave(content[1..], ps);
      forall q | 0 <= q < |rest| ensures rest[q].id != b.id && rest[q].id != Mark(b.loc.vmaddr).id {
        var y := InterleaveOrigin(content[1..], ps, q);
        LaterDiffers(content, 1 + y);
      }
      DistinctCons(b, rest);
      DistinctCons(Mark(b.loc.vmaddr), [b] + rest);
    }
  }

  lemma {:induction false} DistinctCons(b: Blob<Ref>, rest: Content)
    requires DistinctIds(rest) && forall q :: 0 <= q < |rest| ==> rest[q].id != b.id
    ensures DistinctIds([b] + rest)
  {
  }

  lemma {:induction false} DistinctSnoc(rest: Content, b: Blob<Ref>)
    requires DistinctIds(rest) && forall q :: 0 <= q < |rest| ==> rest[q].id != b.id
    ensures DistinctIds(rest + [b])
  {
  }

  lemma {:induction false} ReadNamed(s: Source)
    requires WellRead(s, 4)
    ensures Sorted(s.content) && Named(s.content)
    ensures forall i :: 0 <= i < |s.content| ==> Inside(s, s.content[i].loc.vmaddr)
  {
    TilesSorted(s.content, 4, s.addr, s.size);
    forall i | 0 <= i < |s.content|
      ensures Inside(s, s.content[i].loc.vmaddr) && s.content[i].id == BlobAt(s.content[i].loc.vmaddr)
    {
      TilesBounds(s.content, 4, s.addr, s.size, i);
    }
  }

  /** An identity of a merged section names an address inside it, or is the mark at its end. */
  lemma {:induction false} MergedIds(s: Source, ps: seq<nat>, atEnd: bool, id: Ref)
    requires WellRead(s, 4) && id in Ids(Merged(s, ps, atEnd))
    ensures !id.Made? && (Inside(s, id.addr) || (atEnd && id == PlaceAt(s.addr + s.size)))
  {
    ReadNamed(s);
    hide Interleave;
    var content := Merged(s, ps, atEnd);
    var b :| b in content && b.id == id;
    var q :| 0 <= q < |content| && content[q] == b;
    if q < |Interleave(s.content, ps)| {
      var y := InterleaveOrigin(s.content, ps, q);
      assert Inside(s, s.content[y].loc.vmaddr);
    }
  }

  lemma {:induction false} MergedDistinct(s: Source, ps: seq<nat>, atEnd: bool)
    requires WellRead(s, 4)
    ensures DistinctIds(Merged(s, ps, atEnd))
  {
    ReadNamed(s);
    hide Interleave, WellRead, Sorted;
    InterleaveDistinct(s.content, ps);
    var inner, end := Interleave(s.content, ps), s.addr + s.size;
    assert inner + [] == inner;
    forall q | 0 <= q < |inner| ensures inner[q].id != Mark(end).id {
      var y := InterleaveOrigin(s.content, ps, q);
      assert Inside(s, s.content[y].loc.vmaddr);
    }
    DistinctSnoc(inner, Mark(end));
  }

  /** No two blobs or placeholders of the sections share an identity once the placeholders are placed. */
  lemma {:induction false} PlacedDistinct(src: seq<Source>, ps: seq<nat>, parts: seq<Part>)
    requires AllRead(src) && Placed(src, ps, parts)
    ensures Distinct(parts)
  {
    hide Merged, WellRead, DistinctIds;
    forall i | 0 <= i < |parts| ensures DistinctIds(parts[i].content) {
      MergedDistinct(src[i], ps, TakesEnd(src, ps, i));
    }
    forall i, j | 0 <= i < j < |parts| ensures Ids(parts[i].content) !! Ids(parts[j].content) {
      forall id | id in Ids(parts[i].content) ensures id !in Ids(parts[j].content) {
        if id in Ids(parts[j].content) {
          SharedId(src, ps, i, j, id);
        }
      }
    }
  }

  lemma {:induction false} SharedId(src: seq<Source>, ps: seq<nat>, i: nat, j: nat, id: Ref)
    requires AllRead(src) && i < j < |src|
    requires id in Ids(Merged(src[i], ps, TakesEnd(src, ps, i)))
    ensures id !in Ids(Merged(src[j], ps, TakesEnd(src, ps, j)))
  {
    hide Merged, WellRead;
    MergedIds(src[i], ps, TakesEnd(src, ps, i), id);
    assert Inside(src[i], id.addr) ==> !Inside(src[j], id.addr);
    if id in Ids(Merged(src[j], ps, TakesEnd(src, ps, j))) {
      MergedIds(src[j], ps, TakesEnd(src, ps, j), id);
    }
  }

  /** The parse phases that place placeholders: merge them into sections, then put the rest at section ends. */
  method PlacePlaceholders(src: seq<Source>, env: ParseEnv) returns (r: Result<seq<Part>>)
    requires Ascending(env.placeholders) && AllRead(src)
    modifies env
    ensures r.Ok? <==> forall p :: p in old(env.placeholders) ==> Placeable(src, p)
    ensures r.Ok? ==> Placed(src, old(env.placeholders), r.value) && Distinct(r.value)
  {
    hide Starts, WellRead, Ascending, Merged;
    ghost var ps := env.placeholders;
    var merged := MergeSections(src, env);
    if merged.Err? {
      assert exists p :: p in ps && !Placeable(src, p) by { NotMerged(src, ps); }
      return Err(merged.reason);
    }
    ghost var left := env.placeholders;
    var parts: seq<Part> := [];
    for n := 0 to |src|
      invariant |parts| == n && Ascending(env.placeholders)
      invariant forall i :: 0 <= i < n ==>
        parts[i].stubs == src[i].stubs && parts[i].content == Merged(src[i], ps, TakesEnd(src, ps, i))
      invariant forall p :: p in env.placeholders <==>
        p in left && forall i :: 0 <= i < n ==> p != src[i].addr + src[i].size
    {
      var found := TakeEnd(env, src[n].addr + src[n].size);
      MergedEnd(src[n], ps);
      var content := merged.value[n] + if found then [Mark(src[n].addr + src[n].size)] else [];
      assert !found ==> content == merged.value[n];
      assert found <==> TakesEnd(src, ps, n);
      parts := parts + [Part(content, src[n].stubs)];
    }
    if env.placeholders != [] {
      assert env.placeholders[0] in env.placeholders;
      return Err(Misplaced);
    }
    PlacedDistinct(src, ps, parts);
    return Ok(parts);
  }

  lemma {:induction false} MergedEnd(s: Source, ps: seq<nat>)
    ensures Merged(s, ps, true) == Merged(s, ps, false) + [Mark(s.addr + s.size)]
  {
  }

  lemma {:induction false} NotMerged(src: seq<Source>, ps: seq<nat>)
    requires AllRead(src)
    requires !forall p, i :: p in ps && 0 <= i < |src| && Inside(src[i], p) ==> Starts(src[i].content, p)
    ensures exists p :: p in ps && !Placeable(src, p)
  {
    hide Starts, WellRead;
    var p, i :| p in ps && 0 <= i < |src| && Inside(src[i], p) && !Starts(src[i].content, p);
    assert !Placeable(src, p);
  }

  /** The placeholder for address `t` ends up exactly where the blob that started at `t` ends up. */
  lemma {:induction false} TargetKept(src: seq<Source>, ps: seq<nat>, parts: seq<Part>, built: seq<SectionView<Ref>>, at: map<Ref, nat>,
                   j: nat, y: nat)
    requires Placed(src, ps, parts) && Compiled(parts, built) && Describes(at, built)
    requires j < |src| && WellRead(src[j], 4) && y < |src[j].content| && src[j].content[y].loc.vmaddr in ps
    ensures var t := src[j].content[y].loc.vmaddr;
      && src[j].content[y].id == BlobAt(t)
      && PlaceAt(t) in AllIds(parts)
      && Made(PlaceAt(t), 0) in at && Made(BlobAt(t), 0) in at
      && at[Made(PlaceAt(t), 0)] == at[Made(BlobAt(t), 0)]
  {
    var s := src[j];
    var t := s.content[y].loc.vmaddr;
    TilesBounds(s.content, 4, s.addr, s.size, y);
    var q := InterleavedAt(s.content, ps, y);
    var content := parts[j].content;
    assert content[q] == Mark(t) && content[q + 1] == s.content[y];
    MarkMeetsNext(parts, built, at, j, q);
    AllIdsIn(parts, PlaceAt(t));
    assert content[q] in content;
  }

  lemma {:induction false} LastIsMark(s: Source, ps: seq<nat>)
    ensures var c := Merged(s, ps, true);
      c != [] && c[|c| - 1].kind.Placeholder? && c[|c| - 1].id == PlaceAt(s.addr + s.size)
  {
    hide Interleave;
  }

  lemma {:induction false} PlacedIs(src: seq<Source>, ps: seq<nat>, parts: seq<Part>, j: nat)
    requires Placed(src, ps, parts) && j < |src|
    ensures |parts| == |src| && parts[j].content == Merged(src[j], ps, TakesEnd(src, ps, j))
  {
    hide Merged, TakesEnd;
  }

  lemma {:induction false} CompiledIs(parts: seq<Part>, built: seq<SectionView<Ref>>, i: nat)
    requires Compiled(parts, built) && i < |parts|
    ensures |built| == |parts| && ExpandAll(parts[i].content, parts[i].stubs).Ok?
    ensures |built[i].content| == |ExpandAll(parts[i].content, parts[i].stubs).value|
    ensures forall r :: 0 <= r < |built[i].content| ==>
      built[i].content[r].Start().vmaddr == built[i].addr + Total(built[i].content[..r], WORD)
  {
    hide Total, ExpandAll, LinkBlob, PlaceAll, BuildBlob, Blob.Start;
    forall r | 0 <= r < |built[i].content|
      ensures built[i].content[r].Start().vmaddr == built[i].addr + Total(built[i].content[..r], WORD)
    {
      PlacedAt(NewContent(parts, i), WORD, BaseOf(built[i]), r);
    }
  }

  /** The placeholder for the end of a section ends up at the end of the new section. */
  lemma {:induction false} EndKept(src: seq<Source>, ps: seq<nat>, parts: seq<Part>, built: seq<SectionView<Ref>>, at: map<Ref, nat>, j: nat)
    requires Placed(src, ps, parts) && Compiled(parts, built) && Describes(at, built)
    requires j < |src| && TakesEnd(src, ps, j)
    ensures Made(PlaceAt(src[j].addr + src[j].size), 0) in at
    ensures at[Made(PlaceAt(src[j].addr + src[j].size), 0)] == built[j].addr + Total(built[j].content, WORD)
  {
    hide *;
    PlacedIs(src, ps, parts, j);
    var content, stubs := parts[j].content, parts[j].stubs;
    var q := |content| - 1;
    LastIsMark(src[j], ps);
    FinalMark(parts, built, at, j, q);
    CompiledIs(parts, built, j);
    PosEnd(content, stubs);
    var r := Pos(content, stubs, q);
    TotalSplit(built[j].content, WORD, r);
    assert built[j].content[..r + 1] == built[j].content;
  }

  // ----- references -----

  predicate IsBranch(iform: Iform)
  {
    iform.CallRelZ? || iform.JmpRelB? || iform.JmpRelZ? || iform.JccRelB? || iform.JccRelZ?
  }

  /** A relative branch to `t`, as decoded: it has no immediate operand. */
  predicate BranchTo(b: Blob<Ref>, t: nat)
  {
    && b.kind.Inst? && IsBranch(b.kind.insn.iform) && b.kind.insn.imm.None? && b.kind.insn.memdisp.None?
    && b.kind.insn.brdisp == Some(PlaceAt(t))
  }

  /** The blob that carries the branch: the jump inside an expanded call, or the branch itself. */
  function Carrier(b: Blob<Ref>): nat
  {
    if b.kind.Inst? && b.kind.insn.iform.CallRelZ? then 4 else 0
  }

  lemma {:induction false} BranchExpands(b: Blob<Ref>, stubs: bool, t: nat, ids: set<Ref>)
    requires BranchTo(b, t) && PlaceAt(t) in ids
    ensures Expand(b, stubs).Ok? && Carrier(b) < |Expand(b, stubs).value|
    ensures
      var o := ForwardBlob(Expand(b, stubs).value[Carrier(b)], ids);
      o.active && o.kind.Inst? && o.kind.insn.brdisp == Some(Made(PlaceAt(t), 0))
      && o.kind.insn.imm.None? && o.kind.insn.memdisp.None? && IsBranch(o.kind.insn.iform)
  {
  }

  /** Building keeps what a branch refers to. */
  lemma {:induction false} BuildKeepsBranch(o: Blob<Ref>, loc: Location)
    requires o.kind.Inst? && BuildBlob(o, WORD, loc).Some?
    ensures var b := BuildBlob(o, WORD, loc).value.0;
      && b.kind.Inst? && b.loc == loc && b.kind.insn.brdisp == o.kind.insn.brdisp
      && b.kind.insn.memdisp == o.kind.insn.memdisp
      && (o.kind.insn.imm.None? ==> b.kind.insn.imm.None?)
  {
  }

  /**
   Reference preservation for branches: the emitted jump, whatever expansion or widening happened between, reaches
   the new place of its old target exactly when the displacement fits 32 bits.
   */
  lemma {:induction false} BranchPreserved(
    src: seq<Source>, ps: seq<nat>, parts: seq<Part>, built: seq<SectionView<Ref>>, at: map<Ref, nat>,
    i: nat, x: nat, j: nat, y: nat)
    requires Placed(src, ps, parts) && Compiled(parts, built) && Describes(at, built)
    requires j < |src| && WellRead(src[j], 4) && y < |src[j].content| && src[j].content[y].loc.vmaddr in ps
    requires i < |parts| && x < |parts[i].content| && BranchTo(parts[i].content[x], src[j].content[y].loc.vmaddr)
    ensures
      var b := parts[i].content[x];
      && Expand(b, parts[i].stubs).Ok? && Carrier(b) < |Expand(b, parts[i].stubs).value|
      && var f := Final(parts, built, i, x, Carrier(b));
      && f.kind.Inst?
      && (InsnBytes(f.kind.insn, f.loc, at).Some? ==>
            && |f.kind.insn.buf| >= 4
            && Made(BlobAt(src[j].content[y].loc.vmaddr), 0) in at
            && var goal := at[Made(BlobAt(src[j].content[y].loc.vmaddr), 0)];
            (BranchTarget(f.kind.insn, f.loc, InsnBytes(f.kind.insn, f.loc, at).value) == goal <==>
             -0x8000_0000 <= goal - (f.loc.vmaddr + |f.kind.insn.buf|) < 0x8000_0000))
  {
    hide *;
    var b, t := parts[i].content[x], src[j].content[y].loc.vmaddr;
    TargetKept(src, ps, parts, built, at, j, y);
    BranchExpands(b, parts[i].stubs, t, AllIds(parts));
    FinalIs(parts, built, at, i, x, Carrier(b));
    var f := Final(parts, built, i, x, Carrier(b));
    var o := ForwardBlob(Expand(b, parts[i].stubs).value[Carrier(b)], AllIds(parts));
    BuildKeepsBranch(o, f.Start());
    if InsnBytes(f.kind.insn, f.loc, at).Some? {
      BranchReachesIff(f.kind.insn, f.loc, at);
    }
  }

  // ----- rebased immediates and pointer words -----

  /** An instruction with a rebased absolute immediate `t` that becomes a rip-relative operand. */
  predicate ImmTo(b: Blob<Ref>, stubs: bool, t: nat)
  {
    && b.kind.Inst? && b.kind.insn.imm.Some? && b.kind.insn.imm.value.pointee == Some(PlaceAt(t))
    && match b.kind.insn.iform
       case MovGprImm => b.kind.insn.reg0 < 8
       case JmpMem => stubs
       case PushImmZ => stubs
       case _ => false
  }

  lemma {:induction false} ImmExpands(b: Blob<Ref>, stubs: bool, t: nat, ids: set<Ref>)
    requires ImmTo(b, stubs, t) && PlaceAt(t) in ids
    ensures Expand(b, stubs).Ok?
    ensures
      var o := ForwardBlob(Expand(b, stubs).value[0], ids);
      o.active && o.kind.Inst? && o.kind.insn.memdisp == Some(Made(PlaceAt(t), 0))
      && o.kind.insn.brdisp.None? && o.kind.insn.imm.None?
  {
    hide LeaR11Rip, LeaR32Rip, JmpMemRip;
  }

  lemma {:induction false} BuildKeepsMem(o: Blob<Ref>, loc: Location)
    requires o.kind.Inst? && o.kind.insn.imm.None? && BuildBlob(o, WORD, loc).Some?
    ensures var b := BuildBlob(o, WORD, loc).value.0;
      && b.kind.Inst? && b.loc == loc && b.kind.insn.imm.None?
      && b.kind.insn.memdisp == o.kind.insn.memdisp && b.kind.insn.brdisp == o.kind.insn.brdisp
  {
  }

  /**
   Reference preservation for rebased immediates: the rip-relative operand that replaces the absolute address leads
   to the new place of the blob at that address exactly when the displacement fits 32 bits.
   */
  lemma {:induction false} ImmediatePreserved(
    src: seq<Source>, ps: seq<nat>, parts: seq<Part>, built: seq<SectionView<Ref>>, at: map<Ref, nat>,
    i: nat, x: nat, j: nat, y: nat)
    requires Placed(src, ps, parts) && Compiled(parts, built) && Describes(at, built)
    requires j < |src| && WellRead(src[j], 4) && y < |src[j].content| && src[j].content[y].loc.vmaddr in ps
    requires i < |parts| && x < |parts[i].content|
    requires ImmTo(parts[i].content[x], parts[i].stubs, src[j].content[y].loc.vmaddr)
    ensures
      && Expand(parts[i].content[x], parts[i].stubs).Ok?
      && var f := Final(parts, built, i, x, 0);
      && f.kind.Inst?
      && (InsnBytes(f.kind.insn, f.loc, at).Some? ==>
            && f.kind.insn.dispPos + 4 <= |f.kind.insn.buf|
            && Made(BlobAt(src[j].content[y].loc.vmaddr), 0) in at
            && var goal := at[Made(BlobAt(src[j].content[y].loc.vmaddr), 0)];
            (MemTarget(f.kind.insn, f.loc, InsnBytes(f.kind.insn, f.loc, at).value) == goal <==>
             -0x8000_0000 <= goal - (f.loc.vmaddr + |f.kind.insn.buf|) < 0x8000_0000))
  {
    hide *;
    var b, t := parts[i].content[x], src[j].content[y].loc.vmaddr;
    TargetKept(src, ps, parts, built, at, j, y);
    ImmExpands(b, parts[i].stubs, t, AllIds(parts));
    FinalIs(parts, built, at, i, x, 0);
    var f := Final(parts, built, i, x, 0);
    BuildKeepsMem(ForwardBlob(Expand(b, parts[i].stubs).value[0], AllIds(parts)), f.Start());
    if InsnBytes(f.kind.insn, f.loc, at).Some? {
      MemReachesIff(f.kind.insn, f.loc, at);
    }
  }

  lemma {:induction false} PointerExpands(b: Blob<Ref>, stubs: bool, key: Ref, ids: set<Ref>)
    requires b.kind == LazyPointer(Some(key)) && !key.Made? && key in ids
    ensures Expand(b, stubs).Ok?
    ensures ForwardBlob(Expand(b, stubs).value[0], ids).kind == LazyPointer(Some(Made(key, 0)))
  {
  }

  lemma {:induction false} BuildKeepsPointer(o: Blob<Ref>, loc: Location)
    requires o.kind.LazyPointer?
    ensures BuildBlob(o, WORD, loc).Some? && BuildBlob(o, WORD, loc).value.0.kind == o.kind
  {
  }

  /** A lazy pointer to a blob of the input is emitted as the new address of that blob, eight bytes wide. */
  lemma {:induction false} PointerPreserved(
    parts: seq<Part>, built: seq<SectionView<Ref>>, at: map<Ref, nat>, index: map<nat, uint32>, i: nat, x: nat, key: Ref)
    requires Compiled(parts, built) && Describes(at, built) && i < |parts| && x < |parts[i].content|
    requires parts[i].content[x].kind == LazyPointer(Some(key)) && !key.Made? && key in AllIds(parts)
    requires Made(key, 0) in at && at[Made(key, 0)] < TWO_64
    ensures
      && Expand(parts[i].content[x], parts[i].stubs).Ok?
      && var f := Final(parts, built, i, x, 0);
      BlobBytes(f, WORD, at, index).Some? && FromLe(BlobBytes(f, WORD, at, index).value) == at[Made(key, 0)]
  {
    PointerExpands(parts[i].content[x], parts[i].stubs, key, AllIds(parts));
    FinalIs(parts, built, at, i, x, 0);
    var f := Final(parts, built, i, x, 0);
    BuildKeepsPointer(ForwardBlob(Expand(parts[i].content[x], parts[i].stubs).value[0], AllIds(parts)), f.Start());
    assert f.kind == LazyPointer(Some(Made(key, 0)));
    hide Compiled, Describes, Expand, Final, Le, FromLe;
    assert BlobBytes(f, WORD, at, index) == Some(Le(WORD, at[Made(key, 0)]));
    EightBytes(at[Made(key, 0)]);
  }

  lemma {:induction false} EightBytes(v: uint64)
    ensures FromLe(Le(8, v)) == v
  {
    FieldHolds(8, v);
    WordWidths();
    hide Le, FromLe, Pow256;
  }
}
