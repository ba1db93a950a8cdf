/**
 The transformation of a whole archive with its resolver: new blobs ask for the x86_64 counterparts of the i386
 objects they refer to, possibly before these exist. After the last blob every pointer is set.
 */
module Link {
  import opened Wrappers
  import opened Blobs
  import opened Placeholders
  import opened Translate
  import opened Opcodes
  import R = Resolver

  datatype Field = Mem | Br | Pointee | PushDisp | PushBr | JmpDisp | JmpBr

  /** A pointer variable: a field of a new blob. */
  datatype Slot = Slot(owner: Ref, field: Field)

  type Event = R.Event<Ref, Ref, Slot>
  type Env = R.Resolver<Ref, Ref, Slot>

  /** The request for one pointer; null keys are not resolved, and neither are pointers already set. */
  function Ask(owner: Ref, field: Field, p: Option<Ref>): seq<Event>
  {
    if p.Some? && !p.value.Made? then [R.Asked(p.value, Slot(owner, field))] else []
  }

  function Asks(b: Blob<Ref>): seq<Event>
  {
    match b.kind
    case LazyPointer(p) => Ask(b.id, Pointee, p)
    case Inst(i) => Ask(b.id, Mem, i.memdisp) + Ask(b.id, Br, i.brdisp)
    case Stub(p, j, _, _, _) =>
      (Ask(b.id, PushDisp, p.memdisp) + Ask(b.id, PushBr, p.brdisp)) +
      (Ask(b.id, JmpDisp, j.memdisp) + Ask(b.id, JmpBr, j.brdisp))
    case _ => []
  }

  function AsksAll(bs: Content): seq<Event>
  {
    if bs == [] then [] else Asks(bs[0]) + AsksAll(bs[1..])
  }

  /** Whether the blob is transformed by its copying constructor, which announces the new object straight away. */
  predicate Copied(b: Blob<Ref>)
  {
    match b.kind
    case Inst(i) => (i.imm.Some? ==> i.imm.value.pointee.None?) && !Rewritten(i.iform)
    case _ => true
  }

  /** An instruction is copied exactly when what it becomes is itself. */
  lemma {:induction false} CopiedIff(b: Blob<Ref>, stubs: bool)
    requires b.kind.Inst?
    ensures Copied(b) <==> Kinds(b, stubs) == Ok([b.kind])
  {
    hide LeaR11Rip, LeaR32Rip, JmpMemRip, PushR11, PushAx, MovMemRspR32, MovMemRspImm, MovR32MemRsp, LeaRspRsp4, JmpR64,
         JmpRel32, IncR32, DecR32, PushMemToMov, CallMemToJmp;
    if !Copied(b) && Kinds(b, stubs).Ok? {
      var kinds := Kinds(b, stubs).value;
      assert |kinds| == 1 ==> kinds[0].Inst? && kinds[0].insn.iform == Plain;
      assert b.kind.insn.iform != Plain || kinds != [b.kind];
    }
  }

  function Announce(b: Blob<Ref>, bs: Content): seq<Event>
    requires bs != []
  {
    [R.Added(b.id, bs[0].id)]
  }

  function Early(b: Blob<Ref>, bs: Content): seq<Event>
    requires bs != []
  {
    if Copied(b) then Announce(b, bs) else []
  }

  /** The calls made while one i386 blob is transformed into `bs`; a copied blob is announced twice. */
  function EventsOf(b: Blob<Ref>, bs: Content): seq<Event>
    requires bs != []
  {
    Early(b, bs) + AsksAll(bs) + Announce(b, bs)
  }

  /** A section's blobs and whether it is a stub section. */
  datatype Part = Part(content: Content, stubs: bool)

  function EventsIn(content: Content, stubs: bool): seq<Event>
    requires ExpandAll(content, stubs).Ok?
    decreases |content|
  {
    if content == [] then []
    else EventsOf(content[0], Expand(content[0], stubs).value) + EventsIn(content[1..], stubs)
  }

  predicate Translatable(parts: seq<Part>)
  {
    forall i :: 0 <= i < |parts| ==> ExpandAll(parts[i].content, parts[i].stubs).Ok?
  }

  function Events(parts: seq<Part>): seq<Event>
    requires Translatable(parts)
  {
    if parts == [] then [] else EventsIn(parts[0].content, parts[0].stubs) + Events(parts[1..])
  }

  function Ids(content: Content): set<Ref>
  {
    set b | b in content :: b.id
  }

  ghost predicate DistinctIds(content: Content)
  {
    forall i, j :: 0 <= i < j < |content| ==> content[i].id != content[j].id
  }

  function AllIds(parts: seq<Part>): set<Ref>
  {
    if parts == [] then {} else Ids(parts[0].content) + AllIds(parts[1..])
  }

  /** No two input blobs share an identity. */
  ghost predicate Distinct(parts: seq<Part>)
  {
    && (forall i :: 0 <= i < |parts| ==> DistinctIds(parts[i].content))
    && (forall i, j :: 0 <= i < j < |parts| ==> Ids(parts[i].content) !! Ids(parts[j].content))
  }

  // ----- the calls are coherent -----

  lemma {:induction false} AskCoherent(owner: Ref, field: Field, p: Option<Ref>)
    ensures R.Coherent(Ask(owner, field, p)) && R.Supplied(Ask(owner, field, p)) == map[]
    ensures R.Wanted(Ask(owner, field, p)).Keys <= {Slot(owner, field)}
  {
    var es := Ask(owner, field, p);
    if es != [] {
      assert es[..0] == [];
    }
  }

  lemma {:induction false} AskTwo(owner: Ref, f: Field, p: Option<Ref>, g: Field, q: Option<Ref>)
    requires f != g
    ensures var es := Ask(owner, f, p) + Ask(owner, g, q);
      R.Coherent(es) && R.Supplied(es) == map[] && R.Wanted(es).Keys <= {Slot(owner, f), Slot(owner, g)}
  {
    AskCoherent(owner, f, p);
    AskCoherent(owner, g, q);
    R.CoherentAppend(Ask(owner, f, p), Ask(owner, g, q));
  }

  lemma {:induction false} NothingSupplied(es: seq<Event>)
    requires R.Supplied(es) == map[]
    ensures R.Supplied(es).Keys == {}
  {
    hide *;
  }

  lemma {:induction false} OwnedBy(owner: Ref, a: map<Slot, Ref>, c: map<Slot, Ref>)
    requires a.Keys <= {Slot(owner, PushDisp), Slot(owner, PushBr)}
    requires c.Keys <= {Slot(owner, JmpDisp), Slot(owner, JmpBr)}
    ensures forall s :: s in a + c ==> s.owner == owner
  {
    hide *;
  }

  lemma {:induction false} AskFour(owner: Ref, p: Insn<Ref>, j: Insn<Ref>)
    ensures var es := (Ask(owner, PushDisp, p.memdisp) + Ask(owner, PushBr, p.brdisp)) +
                      (Ask(owner, JmpDisp, j.memdisp) + Ask(owner, JmpBr, j.brdisp));
      && R.Coherent(es) && R.Supplied(es) == map[]
      && forall s :: s in R.Wanted(es) ==> s.owner == owner
  {
    hide *;
    var a := Ask(owner, PushDisp, p.memdisp) + Ask(owner, PushBr, p.brdisp);
    var c := Ask(owner, JmpDisp, j.memdisp) + Ask(owner, JmpBr, j.brdisp);
    AskTwo(owner, PushDisp, p.memdisp, PushBr, p.brdisp);
    AskTwo(owner, JmpDisp, j.memdisp, JmpBr, j.brdisp);
    NothingSupplied(a);
    NothingSupplied(c);
    assert R.Wanted(a).Keys !! R.Wanted(c).Keys;
    R.CoherentAppend(a, c);
    OwnedBy(owner, R.Wanted(a), R.Wanted(c));
  }

  lemma {:induction false} AsksCoherent(b: Blob<Ref>)
    ensures R.Coherent(Asks(b)) && R.Supplied(Asks(b)) == map[]
    ensures forall s :: s in R.Wanted(Asks(b)) ==> s.owner == b.id
  {
    hide Ask, R.Coherent;
    match b.kind
    case LazyPointer(p) => AskCoherent(b.id, Pointee, p);
    case Inst(i) => AskTwo(b.id, Mem, i.memdisp, Br, i.brdisp);
    case Stub(p, j, _, _, _) => AskFour(b.id, p, j);
    case _ => NothingCoherent(b);
  }

  lemma {:induction false} NothingCoherent(b: Blob<Ref>)
    requires Asks(b) == []
    ensures R.Coherent(Asks(b)) && R.Supplied(Asks(b)) == map[] && R.Wanted(Asks(b)) == map[]
  {
  }

  lemma {:induction false} AsksAllCoherent(bs: Content)
    requires DistinctIds(bs)
    ensures R.Coherent(AsksAll(bs)) && R.Supplied(AsksAll(bs)) == map[]
    ensures forall s :: s in R.Wanted(AsksAll(bs)) ==> s.owner in Ids(bs)
  {
    if bs == [] {
    } else {
      AsksCoherent(bs[0]);
      AsksAllCoherent(bs[1..]);
      assert bs[0] in bs && forall b :: b in bs[1..] ==> b in bs;
      assert bs[0].id !in Ids(bs[1..]);
      R.CoherentAppend(Asks(bs[0]), AsksAll(bs[1..]));
    }
  }

  lemma {:induction false} AnnounceCoherent(b: Blob<Ref>, bs: Content)
    requires bs != [] && bs[0].id == Made(b.id, 0)
    ensures var es := Announce(b, bs);
      R.Coherent(es) && R.Supplied(es) == map[b.id := Made(b.id, 0)] && R.Wanted(es) == map[]
  {
    assert Announce(b, bs)[..0] == [];
  }

  /** The calls before the announcement made by the section. */
  lemma {:induction false} EarlyCoherent(b: Blob<Ref>, bs: Content)
    requires bs != [] && DistinctIds(bs) && bs[0].id == Made(b.id, 0)
    ensures var es := Early(b, bs) + AsksAll(bs);
      && R.Coherent(es) && R.Wanted(es) == R.Wanted(AsksAll(bs))
      && R.Supplied(es) == if Copied(b) then map[b.id := Made(b.id, 0)] else map[]
  {
    hide *;
    AsksAllCoherent(bs);
    NothingSupplied(AsksAll(bs));
    EarlyIs(b, bs);
    if Copied(b) {
      AnnounceCoherent(b, bs);
      R.CoherentAppend(Announce(b, bs), AsksAll(bs));
      assert map[b.id := Made(b.id, 0)] + map[] == map[b.id := Made(b.id, 0)];
      assert map[] + R.Wanted(AsksAll(bs)) == R.Wanted(AsksAll(bs));
    } else {
      assert [] + AsksAll(bs) == AsksAll(bs);
    }
  }

  lemma {:induction false} EarlyIs(b: Blob<Ref>, bs: Content)
    requires bs != []
    ensures Early(b, bs) == if Copied(b) then Announce(b, bs) else []
    ensures Announce(b, bs) == [R.Added(b.id, bs[0].id)]
    ensures EventsOf(b, bs) == Early(b, bs) + AsksAll(bs) + Announce(b, bs)
  {
    hide Copied, AsksAll;
  }

  lemma {:induction false} MadeIds(b: Blob<Ref>, stubs: bool)
    requires Expand(b, stubs).Ok?
    ensures var bs := Expand(b, stubs).value;
      DistinctIds(bs) && bs != [] && bs[0].id == Made(b.id, 0)
    ensures forall id :: id in Ids(Expand(b, stubs).value) ==> id.Made? && id.from == b.id
  {
    var bs := Expand(b, stubs).value;
    hide Kinds;
    assert forall i :: 0 <= i < |bs| ==> bs[i].id == Made(b.id, i);
  }

  /** Every pointer of the new blobs belongs to one of them, and the old blob stands for the first of them. */
  lemma {:induction false} EventsOfCoherent(b: Blob<Ref>, stubs: bool)
    requires Expand(b, stubs).Ok?
    ensures var es := EventsOf(b, Expand(b, stubs).value);
      && R.Coherent(es) && R.Supplied(es) == map[b.id := Made(b.id, 0)]
      && forall s :: s in R.Wanted(es) ==> s.owner.Made? && s.owner.from == b.id
  {
    hide *;
    var bs := Expand(b, stubs).value;
    MadeIds(b, stubs);
    AsksAllCoherent(bs);
    EarlyCoherent(b, bs);
    EarlyIs(b, bs);
    R.CoherentSnoc(Early(b, bs) + AsksAll(bs), R.Added(b.id, bs[0].id));
  }

  lemma {:induction false} DistinctHead(content: Content)
    requires content != [] && DistinctIds(content)
    ensures DistinctIds(content[1..]) && content[0].id !in Ids(content[1..])
    ensures Ids(content) == {content[0].id} + Ids(content[1..])
  {
    assert content == [content[0]] + content[1..];
  }

  lemma {:induction false} EventsInStep(content: Content, stubs: bool)
    requires content != [] && ExpandAll(content, stubs).Ok?
    ensures Expand(content[0], stubs).Ok? && ExpandAll(content[1..], stubs).Ok?
    ensures EventsIn(content, stubs) ==
            EventsOf(content[0], Expand(content[0], stubs).value) + EventsIn(content[1..], stubs)
  {
    hide Expand, EventsOf;
  }

  lemma {:induction false} NoEvents(stubs: bool)
    ensures ExpandAll([], stubs).Ok?
    ensures var es := EventsIn([], stubs);
      R.Coherent(es) && R.Supplied(es) == map[] && R.Wanted(es) == map[] && Ids([]) == {}
  {
  }

  lemma {:induction false} EventsInCoherent(content: Content, stubs: bool)
    requires ExpandAll(content, stubs).Ok? && DistinctIds(content)
    ensures var es := EventsIn(content, stubs);
      && R.Coherent(es) && R.Supplied(es).Keys == Ids(content)
      && forall s :: s in R.Wanted(es) ==> s.owner.Made? && s.owner.from in Ids(content)
    decreases |content|
  {
    hide *;
    if content == [] {
      NoEvents(stubs);
    } else {
      DistinctHead(content);
      EventsInStep(content, stubs);
      EventsOfCoherent(content[0], stubs);
      EventsInCoherent(content[1..], stubs);
      R.CoherentAppend(EventsOf(content[0], Expand(content[0], stubs).value), EventsIn(content[1..], stubs));
    }
  }

  lemma {:induction false} AllIdsIn(parts: seq<Part>, id: Ref)
    ensures id in AllIds(parts) <==> exists i :: 0 <= i < |parts| && id in Ids(parts[i].content)
  {
    if parts == [] {
    } else {
      AllIdsIn(parts[1..], id);
      if id in AllIds(parts[1..]) {
        var i :| 0 <= i < |parts[1..]| && id in Ids(parts[1..][i].content);
        assert id in Ids(parts[i + 1].content);
      }
      if i :| 0 <= i < |parts| && id in Ids(parts[i].content) {
        assert i > 0 ==> parts[i] == parts[1..][i - 1];
      }
    }
  }

  lemma {:induction false} EmptyArchive()
    ensures Translatable([]) && AllIds([]) == {}
    ensures R.Coherent(Events([])) && R.Supplied(Events([])) == map[] && R.Wanted(Events([])) == map[]
  {
  }

  lemma {:induction false} ArchiveTail(parts: seq<Part>)
    requires Translatable(parts) && Distinct(parts) && parts != []
    ensures Translatable(parts[1..]) && Distinct(parts[1..])
    ensures ExpandAll(parts[0].content, parts[0].stubs).Ok? && DistinctIds(parts[0].content)
    ensures Events(parts) == EventsIn(parts[0].content, parts[0].stubs) + Events(parts[1..])
    ensures AllIds(parts) == Ids(parts[0].content) + AllIds(parts[1..])
    ensures Ids(parts[0].content) !! AllIds(parts[1..])
  {
    hide EventsIn, ExpandAll, Ids, DistinctIds;
    forall id | id in Ids(parts[0].content) ensures id !in AllIds(parts[1..]) {
      AllIdsIn(parts[1..], id);
      forall i | 0 <= i < |parts[1..]| ensures id !in Ids(parts[1..][i].content) {
        assert Ids(parts[0].content) !! Ids(parts[i + 1].content);
      }
    }
  }

  lemma {:induction false} EventsCoherent(parts: seq<Part>)
    requires Translatable(parts) && Distinct(parts)
    ensures var es := Events(parts);
      && R.Coherent(es) && R.Supplied(es).Keys == AllIds(parts)
      && forall s :: s in R.Wanted(es) ==> s.owner.Made? && s.owner.from in AllIds(parts)
  {
    hide *;
    if parts == [] {
      EmptyArchive();
    } else {
      ArchiveTail(parts);
      EventsInCoherent(parts[0].content, parts[0].stubs);
      EventsCoherent(parts[1..]);
      R.CoherentAppend(EventsIn(parts[0].content, parts[0].stubs), Events(parts[1..]));
    }
  }

  // ----- which calls are made -----

  /** Blob number `x` of section `i`, and number `k` of what it becomes. */
  ghost predicate Makes(parts: seq<Part>, i: nat, x: nat, k: nat, o: Blob<Ref>)
  {
    && i < |parts| && x < |parts[i].content|
    && Expand(parts[i].content[x], parts[i].stubs).Ok?
    && k < |Expand(parts[i].content[x], parts[i].stubs).value|
    && o == Expand(parts[i].content[x], parts[i].stubs).value[k]
  }

  lemma {:induction false} AsksAllHas(bs: Content, k: nat, e: Event)
    requires k < |bs| && e in Asks(bs[k])
    ensures e in AsksAll(bs)
  {
    hide Asks;
    if k == 0 {
    } else {
      AsksAllHas(bs[1..], k - 1, e);
    }
  }

  lemma {:induction false} EventsInHas(content: Content, stubs: bool, x: nat, e: Event)
    requires ExpandAll(content, stubs).Ok? && x < |content|
    requires Expand(content[x], stubs).Ok? ==> e in EventsOf(content[x], Expand(content[x], stubs).value)
    ensures Expand(content[x], stubs).Ok? && e in EventsIn(content, stubs)
    decreases |content|
  {
    if x == 0 {
    } else {
      EventsInHas(content[1..], stubs, x - 1, e);
    }
  }

  lemma {:induction false} EventsHas(parts: seq<Part>, i: nat, e: Event)
    requires Translatable(parts) && i < |parts| && e in EventsIn(parts[i].content, parts[i].stubs)
    ensures e in Events(parts)
  {
    hide EventsIn, ExpandAll;
    if i == 0 {
    } else {
      EventsHas(parts[1..], i - 1, e);
    }
  }

  /** What a pointer variable holds once every call has been made. */
  function Cells(parts: seq<Part>): map<Slot, Ref>
    requires Translatable(parts)
  {
    R.Outcome(Events(parts))
  }

  lemma {:induction false} AskedIsMade(parts: seq<Part>, i: nat, x: nat, k: nat, o: Blob<Ref>, e: Event)
    requires Translatable(parts) && Makes(parts, i, x, k, o) && e in Asks(o)
    ensures e in Events(parts)
  {
    AsksAllHas(Expand(parts[i].content[x], parts[i].stubs).value, k, e);
    EventsInHas(parts[i].content, parts[i].stubs, x, e);
    EventsHas(parts, i, e);
  }

  lemma {:induction false} AddedIsMade(parts: seq<Part>, key: Ref)
    requires Translatable(parts) && key in AllIds(parts)
    ensures R.Added(key, Made(key, 0)) in Events(parts)
  {
    AllIdsIn(parts, key);
    var j :| 0 <= j < |parts| && key in Ids(parts[j].content);
    var y :| 0 <= y < |parts[j].content| && parts[j].content[y].id == key;
    var bs := Expand(parts[j].content[y], parts[j].stubs);
    if bs.Ok? {
      EarlyIs(parts[j].content[y], bs.value);
      assert R.Added(key, Made(key, 0)) in Announce(parts[j].content[y], bs.value);
    }
    EventsInHas(parts[j].content, parts[j].stubs, y, R.Added(key, Made(key, 0)));
    EventsHas(parts, j, R.Added(key, Made(key, 0)));
  }

  /** A request for an input object is answered by the first blob made from it, wherever in the archive it is. */
  lemma {:induction false} Answered(parts: seq<Part>, i: nat, x: nat, k: nat, o: Blob<Ref>, key: Ref, slot: Slot)
    requires Translatable(parts) && Distinct(parts)
    requires Makes(parts, i, x, k, o) && R.Asked(key, slot) in Asks(o)
    ensures slot in Cells(parts) <==> key in AllIds(parts)
    ensures slot in Cells(parts) ==> Cells(parts)[slot] == Made(key, 0)
  {
    hide Makes, Asks, Events, R.Coherent, R.Supplied, R.Wanted;
    EventsCoherent(parts);
    AskedIsMade(parts, i, x, k, o, R.Asked(key, slot));
    R.WantedIff(Events(parts), key, slot);
    if key in AllIds(parts) {
      AddedIsMade(parts, key);
      R.SuppliedIff(Events(parts), key, Made(key, 0));
    }
  }

  // ----- setting the pointers -----

  function LinkRef(owner: Ref, field: Field, p: Option<Ref>, cells: map<Slot, Ref>): Option<Ref>
  {
    if p.None? || p.value.Made? then p
    else if Slot(owner, field) in cells then Some(cells[Slot(owner, field)])
    else None
  }

  /** The blob with its pointer variables read from `cells`. */
  function LinkBlob(b: Blob<Ref>, cells: map<Slot, Ref>): Blob<Ref>
  {
    match b.kind
    case LazyPointer(p) => b.(kind := LazyPointer(LinkRef(b.id, Pointee, p, cells)))
    case Inst(i) =>
      b.(kind := Inst(i.(memdisp := LinkRef(b.id, Mem, i.memdisp, cells),
                         brdisp := LinkRef(b.id, Br, i.brdisp, cells))))
    case Stub(p, j, pl, jl, bindee) =>
      b.(kind := Stub(p.(memdisp := LinkRef(b.id, PushDisp, p.memdisp, cells),
                         brdisp := LinkRef(b.id, PushBr, p.brdisp, cells)),
                      j.(memdisp := LinkRef(b.id, JmpDisp, j.memdisp, cells),
                         brdisp := LinkRef(b.id, JmpBr, j.brdisp, cells)), pl, jl, bindee))
    case _ => b
  }

  function LinkAll(bs: Content, cells: map<Slot, Ref>): (r: Content)
    ensures |r| == |bs| && forall i :: 0 <= i < |bs| ==> r[i] == LinkBlob(bs[i], cells)
  {
    seq(|bs|, i requires 0 <= i < |bs| => LinkBlob(bs[i], cells))
  }

  /** A pointer to an input object becomes a pointer to the first blob made from it. */
  function Forward(p: Option<Ref>, ids: set<Ref>): Option<Ref>
  {
    if p.None? || p.value.Made? then p
    else if p.value in ids then Some(Made(p.value, 0))
    else None
  }

  function ForwardBlob(b: Blob<Ref>, ids: set<Ref>): Blob<Ref>
  {
    match b.kind
    case LazyPointer(p) => b.(kind := LazyPointer(Forward(p, ids)))
    case Inst(i) => b.(kind := Inst(i.(memdisp := Forward(i.memdisp, ids), brdisp := Forward(i.brdisp, ids))))
    case Stub(p, j, pl, jl, bindee) =>
      b.(kind := Stub(p.(memdisp := Forward(p.memdisp, ids), brdisp := Forward(p.brdisp, ids)),
                      j.(memdisp := Forward(j.memdisp, ids), brdisp := Forward(j.brdisp, ids)), pl, jl, bindee))
    case _ => b
  }

  lemma {:induction false} LinkRefForwards(parts: seq<Part>, i: nat, x: nat, k: nat, o: Blob<Ref>, field: Field, p: Option<Ref>)
    requires Translatable(parts) && Distinct(parts) && Makes(parts, i, x, k, o)
    requires p.Some? && !p.value.Made? ==> R.Asked(p.value, Slot(o.id, field)) in Asks(o)
    ensures LinkRef(o.id, field, p, Cells(parts)) == Forward(p, AllIds(parts))
  {
    if p.Some? && !p.value.Made? {
      Answered(parts, i, x, k, o, p.value, Slot(o.id, field));
    }
  }

  /** The resolver, run over the whole archive, forwards every pointer of every new blob. */
  lemma {:induction false} LinkForwards(parts: seq<Part>, i: nat, x: nat, k: nat, o: Blob<Ref>)
    requires Translatable(parts) && Distinct(parts) && Makes(parts, i, x, k, o)
    ensures LinkBlob(o, Cells(parts)) == ForwardBlob(o, AllIds(parts))
  {
    match o.kind
    case LazyPointer(p) => LinkRefForwards(parts, i, x, k, o, Pointee, p);
    case Inst(insn) =>
      LinkRefForwards(parts, i, x, k, o, Mem, insn.memdisp);
      LinkRefForwards(parts, i, x, k, o, Br, insn.brdisp);
    case Stub(p, j, _, _, _) =>
      LinkRefForwards(parts, i, x, k, o, PushDisp, p.memdisp);
      LinkRefForwards(parts, i, x, k, o, PushBr, p.brdisp);
      LinkRefForwards(parts, i, x, k, o, JmpDisp, j.memdisp);
      LinkRefForwards(parts, i, x, k, o, JmpBr, j.brdisp);
    case _ =>
  }

  /** The pointer variables of a blob, instruction by instruction. */
  function Pointers(b: Blob<Ref>): seq<Option<Ref>>
  {
    match b.kind
    case LazyPointer(p) => [p]
    case Inst(i) => [i.memdisp, i.brdisp]
    case Stub(p, j, _, _, _) => [p.memdisp, p.brdisp, j.memdisp, j.brdisp]
    case _ => []
  }

  /** Everything about a blob but its pointer variables. */
  function Unlinked(b: Blob<Ref>): Blob<Ref>
  {
    match b.kind
    case LazyPointer(_) => b.(kind := LazyPointer(None))
    case Inst(i) => b.(kind := Inst(i.(memdisp := None, brdisp := None)))
    case Stub(p, j, pl, jl, bindee) =>
      b.(kind := Stub(p.(memdisp := None, brdisp := None), j.(memdisp := None, brdisp := None), pl, jl, bindee))
    case _ => b
  }

  lemma {:induction false} ForwardedIs(o: Blob<Ref>, ids: set<Ref>)
    ensures
      var f := ForwardBlob(o, ids);
      && |Pointers(f)| == |Pointers(o)| && Unlinked(f) == Unlinked(o)
      && forall n :: 0 <= n < |Pointers(o)| ==> Pointers(f)[n] == Forward(Pointers(o)[n], ids)
  {
    hide Forward;
    match o.kind
    case LazyPointer(_) =>
    case Inst(_) =>
    case Stub(_, _, _, _, _) =>
    case _ =>
  }

  /** Each of them leads to the first blob made from what it itself led to; everything else about the blob stays. */
  lemma {:induction false} EachForwarded(parts: seq<Part>, i: nat, x: nat, k: nat, o: Blob<Ref>)
    requires Translatable(parts) && Distinct(parts) && Makes(parts, i, x, k, o)
    ensures
      var f := LinkBlob(o, Cells(parts));
      && |Pointers(f)| == |Pointers(o)| && Unlinked(f) == Unlinked(o)
      && forall n :: 0 <= n < |Pointers(o)| ==> Pointers(f)[n] == Forward(Pointers(o)[n], AllIds(parts))
  {
    hide *;
    LinkForwards(parts, i, x, k, o);
    ForwardedIs(o, AllIds(parts));
  }

  // ----- the transforming loops -----

  method MakeCalls(es: seq<Event>, env: Env)
    requires env.eager
    modifies env
    ensures env.Now() == R.RunFrom(true, old(env.Now()), es)
  {
    for n := 0 to |es|
      invariant R.RunFrom(true, old(env.Now()), es) == R.RunFrom(true, env.Now(), es[n..])
    {
      assert es[n..][0] == es[n] && es[n..][1..] == es[n + 1..];
      match es[n] {
        case Added(key, u) => var ok := env.Add(key, u);
        case Asked(key, p) => env.Resolve(key, p);
      }
    }
  }

  /** The events of a section, empty if it cannot be translated. */
  ghost function EventsOrNone(content: Content, stubs: bool): seq<Event>
  {
    if ExpandAll(content, stubs).Ok? then EventsIn(content, stubs) else []
  }

  lemma {:induction false} UnrollExpand(content: Content, stubs: bool)
    ensures content == [] ==> ExpandAll(content, stubs) == Ok([])
    ensures content != [] && Expand(content[0], stubs).Err? ==>
      ExpandAll(content, stubs) == Err(Expand(content[0], stubs).reason)
    ensures content != [] && Expand(content[0], stubs).Ok? ==>
      ExpandAll(content, stubs) == Prefixed(Expand(content[0], stubs).value, ExpandAll(content[1..], stubs))
  {
    hide Expand;
  }

  lemma {:induction false} PrefixedIs(done: Content, r: Result<Content>)
    ensures Prefixed(done, r).Ok? <==> r.Ok?
    ensures r.Err? ==> Prefixed(done, r) == Err(r.reason)
  {
  }

  lemma {:induction false} UnrollEvents(content: Content, stubs: bool)
    ensures content == [] ==> EventsOrNone(content, stubs) == []
    ensures content != [] && ExpandAll(content, stubs).Ok? ==>
      && Expand(content[0], stubs).Ok?
      && EventsOrNone(content, stubs) ==
         EventsOf(content[0], Expand(content[0], stubs).value) + EventsOrNone(content[1..], stubs)
  {
    hide Expand, EventsOf;
  }

  lemma {:induction false} Unroll(content: Content, stubs: bool, out: Content, made: seq<Event>)
    ensures content == [] ==>
      Prefixed(out, ExpandAll(content, stubs)) == Ok(out) && made + EventsOrNone(content, stubs) == made
    ensures content != [] && Expand(content[0], stubs).Err? ==>
      Prefixed(out, ExpandAll(content, stubs)) == Err(Expand(content[0], stubs).reason)
    ensures content != [] && Expand(content[0], stubs).Ok? ==>
      var bs := Expand(content[0], stubs).value;
      && Prefixed(out, ExpandAll(content, stubs)) == Prefixed(out + bs, ExpandAll(content[1..], stubs))
      && (Prefixed(out, ExpandAll(content, stubs)).Ok? ==>
            made + EventsOrNone(content, stubs) ==
            (made + EventsOf(content[0], bs)) + EventsOrNone(content[1..], stubs))
  {
    hide *;
    UnrollExpand(content, stubs);
    UnrollEvents(content, stubs);
    PrefixedIs(out, ExpandAll(content, stubs));
    PrefixedTwice(out, [], Ok([]));
    if content != [] && Expand(content[0], stubs).Ok? {
      PrefixedTwice(out, Expand(content[0], stubs).value, ExpandAll(content[1..], stubs));
    }
  }

  /** Transforms the blobs of a section in order; each one's requests and its own announcement go to `env`. */
  method TransformSection(content: Content, stubs: bool, env: Env) returns (r: Result<Content>)
    requires env.eager
    modifies env
    ensures r == ExpandAll(content, stubs)
    ensures r.Ok? ==> env.Now() == R.RunFrom(true, old(env.Now()), EventsIn(content, stubs))
  {
    var out: Content := [];
    var left := content;
    ghost var made: seq<Event> := [];
    PrefixedTwice([], [], ExpandAll(content, stubs));
    while left != []
      invariant ExpandAll(content, stubs) == Prefixed(out, ExpandAll(left, stubs))
      invariant ExpandAll(content, stubs).Ok? ==> EventsOrNone(content, stubs) == made + EventsOrNone(left, stubs)
      invariant env.Now() == R.RunFrom(true, old(env.Now()), made)
      decreases |left|
    {
      hide *;
      Unroll(left, stubs, out, made);
      var bs := Expand(left[0], stubs);
      if bs.Err? {
        return Err(bs.reason);
      }
      ghost var es := EventsOf(left[0], bs.value);
      MakeCalls(EventsOf(left[0], bs.value), env);
      RunFromAppend(old(env.Now()), made, es);
      made := made + es;
      out := out + bs.value;
      left := left[1..];
    }
    Unroll(left, stubs, out, made);
    return Ok(out);
  }

  lemma {:induction false} RunFromAppend(s: R.State<Ref, Ref, Slot>, es: seq<Event>, fs: seq<Event>)
    ensures R.RunFrom(true, R.RunFrom(true, s, es), fs) == R.RunFrom(true, s, es + fs)
    decreases |es|
  {
    if es == [] {
      assert es + fs == fs;
    } else {
      RunFromAppend(R.Step(true, s, es[0]), es[1..], fs);
      assert (es + fs)[1..] == es[1..] + fs;
    }
  }

  /** The whole archive: all sections with one resolver, then every pointer variable as it stands. */
  method TransformArchive(parts: seq<Part>) returns (r: Result<seq<Content>>)
    requires Distinct(parts)
    ensures r.Ok? <==> Translatable(parts)
    ensures r.Ok? ==> |r.value| == |parts| && forall i :: 0 <= i < |parts| ==>
      r.value[i] == LinkAll(ExpandAll(parts[i].content, parts[i].stubs).value, Cells(parts))
  {
    hide R.Run, R.RunFrom, ExpandAll, EventsIn;
    var env := new R.Resolver<Ref, Ref, Slot>(true);
    var made: seq<Content> := [];
    ghost var es: seq<Event> := [];
    for n := 0 to |parts|
      invariant |made| == n && env.eager
      invariant Translatable(parts[..n])
      invariant forall i :: 0 <= i < n ==> made[i] == ExpandAll(parts[i].content, parts[i].stubs).value
      invariant env.Now() == R.Run(true, Events(parts[..n]))
    {
      var bs := TransformSection(parts[n].content, parts[n].stubs, env);
      if bs.Err? {
        return Err(bs.reason);
      }
      assert parts[..n + 1] == parts[..n] + [parts[n]];
      EventsSnoc(parts[..n], parts[n]);
      R.RunAppend(true, Events(parts[..n]), EventsIn(parts[n].content, parts[n].stubs));
      made := made + [bs.value];
    }
    assert parts[..|parts|] == parts;
    EventsCoherent(parts);
    R.EagerOutcome(Events(parts));
    return Ok(seq(|parts|, i requires 0 <= i < |parts| => LinkAll(made[i], Cells(parts))));
  }

  lemma {:induction false} EventsSnoc(parts: seq<Part>, p: Part)
    requires Translatable(parts) && ExpandAll(p.content, p.stubs).Ok?
    ensures Translatable(parts + [p]) && Events(parts + [p]) == Events(parts) + EventsIn(p.content, p.stubs)
  {
    hide EventsIn, ExpandAll;
    if parts == [] {
      assert parts + [p] == [p];
      assert EventsIn(p.content, p.stubs) + [] == EventsIn(p.content, p.stubs);
    } else {
      assert (parts + [p])[1..] == parts[1..] + [p];
      EventsSnoc(parts[1..], p);
    }
  }
}
