/**
 The export trie (src/core/export_info.cc): a radix tree addressed by offsets in the file, a trie with one character
 an edge in memory. `start` is where the trie begins; edges hold offsets from there.
 */
module ExportTrie {
  import opened Wrappers
  import opened Images
  import opened Leb128
  import opened Layout
  import opened Tries
  import opened Bind

  /** What a symbol exports. The value of a regular symbol is the file offset of its blob, 0 for none. */
  datatype Export =
    | Regular(flags: uint64, offset: uint64)
    | Reexport(flags: uint64, ordinal: uint64, name: bytes)
    | Resolver(flags: uint64, stub: uint64, resolver: uint64)

  type Node = Trie<byte, Export>

  predicate IsReexport(flags: uint64) { flags / 8 % 2 == 1 }

  predicate IsResolver(flags: uint64) { flags / 16 % 2 == 1 }

  const MAX_ULEB: nat := 10

  // ----- information of one symbol -----

  /** What `Emit_derived` writes for each kind of symbol. */
  function Derived(e: Export): bytes
  {
    match e
    case Regular(_, offset) => Uleb(offset)
    case Reexport(_, ordinal, name) => Uleb(ordinal) + (name + [0])
    case Resolver(_, stub, resolver) => Uleb(stub) + Uleb(resolver)
  }

  /** What `Emit` writes for a symbol. */
  function Info(e: Export): bytes
  {
    Uleb(e.flags) + Derived(e)
  }

  /** `size()`: an upper bound, with the longest encoding for every number but the flags. */
  function InfoBound(e: Export): nat
  {
    |Uleb(e.flags)| +
    match e
    case Regular(_, _) => MAX_ULEB
    case Reexport(_, _, name) => MAX_ULEB + (|name| + 1)
    case Resolver(_, _, _) => 2 * MAX_ULEB
  }

  /** ExportNode::Parse. A regular symbol's offset must lie in some section of `gs`. */
  function ParseInfo<R>(img: bytes, off: nat, gs: seq<SegmentView<R>>): Result<Export>
  {
    var (flags, o1) :- ReadUleb(img, off);
    if IsReexport(flags) then
      var (ordinal, o2) :- ReadUleb(img, o1);
      var name :- CString(img, o2);
      Ok(Reexport(flags, ordinal, name))
    else if IsResolver(flags) then
      var (stub, o2) :- ReadUleb(img, o1);
      var (resolver, _) :- ReadUleb(img, o2);
      Ok(Resolver(flags, stub, resolver))
    else
      var (offset, _) :- ReadUleb(img, o1);
      if offset > 0 && SegmentLookup(gs, offset).None? then Err(NotFound) else Ok(Regular(flags, offset))
  }

  /** The kind agrees with the flags, names are C strings, and offsets lie in sections. */
  predicate Sound<R>(e: Export, gs: seq<SegmentView<R>>)
  {
    match e
    case Regular(flags, offset) =>
      !IsReexport(flags) && !IsResolver(flags) && (offset > 0 ==> SegmentLookup(gs, offset).Some?)
    case Reexport(flags, _, name) => IsReexport(flags) && 0 !in name
    case Resolver(flags, _, _) => !IsReexport(flags) && IsResolver(flags)
  }

  lemma {:induction false} ParseInfoIs<R>(img: bytes, off: nat, e: Export, gs: seq<SegmentView<R>>, o1: nat, o2: nat, o3: nat)
    requires Sound(e, gs) && ReadUleb(img, off) == Ok((e.flags, o1))
    requires e.Regular? ==> ReadUleb(img, o1) == Ok((e.offset, o2))
    requires e.Reexport? ==> ReadUleb(img, o1) == Ok((e.ordinal, o2)) && CString(img, o2) == Ok(e.name)
    requires e.Resolver? ==> ReadUleb(img, o1) == Ok((e.stub, o2)) && ReadUleb(img, o2) == Ok((e.resolver, o3))
    ensures ParseInfo(img, off, gs) == Ok(e)
  {
    hide ReadUleb, CString, SegmentLookup, IsReexport, IsResolver;
  }

  lemma {:induction false} InfoIs(e: Export)
    ensures Info(e) == Uleb(e.flags) + Derived(e)
    ensures e.Regular? ==> Derived(e) == Uleb(e.offset)
    ensures e.Reexport? ==> Derived(e) == Uleb(e.ordinal) + (e.name + [0])
    ensures e.Resolver? ==> Derived(e) == Uleb(e.stub) + Uleb(e.resolver)
  {
    hide Uleb;
  }

  lemma {:induction false} SoundName<R>(e: Export, gs: seq<SegmentView<R>>)
    requires Sound(e, gs) && e.Reexport?
    ensures 0 !in e.name
  {
  }

  /** Each of the three kinds reads back what it wrote. */
  lemma {:induction false} InfoReadsBack<R>(img: bytes, off: nat, e: Export, gs: seq<SegmentView<R>>)
    requires Has(img, off, Info(e)) && Sound(e, gs)
    ensures ParseInfo(img, off, gs) == Ok(e)
  {
    hide *;
    InfoIs(e);
    HasParts(img, off, Uleb(e.flags), Derived(e));
    ReadBack(img, off, e.flags);
    var o1 := off + |Uleb(e.flags)|;
    match e {
      case Regular(_, offset) =>
        ReadBack(img, o1, offset);
        ParseInfoIs(img, off, e, gs, o1, o1 + |Uleb(offset)|, 0);
      case Reexport(_, ordinal, name) =>
        HasParts(img, o1, Uleb(ordinal), name + [0]);
        ReadBack(img, o1, ordinal);
        SoundName(e, gs);
        NameReads(img, o1 + |Uleb(ordinal)|, name, |name| + 1);
        ParseInfoIs(img, off, e, gs, o1, o1 + |Uleb(ordinal)|, 0);
      case Resolver(_, stub, resolver) =>
        var o2 := o1 + |Uleb(stub)|;
        HasParts(img, o1, Uleb(stub), Uleb(resolver));
        ReadBack(img, o1, stub);
        ReadBack(img, o2, resolver);
        ParseInfoIs(img, off, e, gs, o1, o2, o2 + |Uleb(resolver)|);
    }
  }

  lemma {:induction false} SmallUleb(img: bytes, off: nat)
    requires off < |img| && img[off] < 0x80
    ensures ReadUleb(img, off) == Ok((img[off], off + 1))
  {
    var b := img[off];
    assert Uleb(b) == [b] && img[off..] == Uleb(b) + img[off + 1..];
    RoundTrip(b, img[off + 1..]);
  }

  /** Bit 3 of the flags is a re-export, and without it bit 4 a resolver; anything else is a regular symbol. */
  lemma {:induction false} FlagsTellKind<R>(img: bytes, off: nat, gs: seq<SegmentView<R>>)
    requires off < |img| && img[off] < 0x80 && ParseInfo(img, off, gs).Ok?
    ensures
      var f, e := img[off], ParseInfo(img, off, gs).value;
      && e.flags == f
      && (e.Reexport? <==> f % 0x10 >= 8)
      && (e.Resolver? <==> f % 0x10 < 8 && f % 0x20 >= 0x10)
  {
    SmallUleb(img, off);
    FlagBits(img[off]);
    hide ReadUleb, CString, SegmentLookup, IsReexport, IsResolver;
  }

  lemma {:induction false} FlagBits(f: byte)
    ensures IsReexport(f) <==> f % 0x10 >= 8
    ensures IsResolver(f) <==> f % 0x20 >= 0x10
  {
  }

  /** A re-export is its ordinal and its name, a resolver its two offsets. */
  lemma {:induction false} InfoBytes(ordinal: byte, name: bytes, stub: byte, resolver: byte)
    requires ordinal < 0x80 && stub < 0x80 && resolver < 0x80
    ensures Info(Reexport(0x08, ordinal, name)) == [0x08, ordinal] + name + [0]
    ensures Info(Resolver(0x10, stub, resolver)) == [0x10, stub, resolver]
    ensures Info(Regular(0, stub)) == [0, stub]
  {
  }

  lemma {:induction false} InfoWithinBound(e: Export)
    ensures 1 < |Info(e)| <= InfoBound(e)
  {
    match e
    case Regular(flags, offset) => UlebLengthMonotone(offset, offset);
    case Reexport(flags, ordinal, name) => UlebLengthMonotone(ordinal, ordinal);
    case Resolver(flags, stub, resolver) =>
      UlebLengthMonotone(stub, stub);
      UlebLengthMonotone(resolver, resolver);
  }

  /** The offset written for a regular symbol leads a reader of the output to the address of its blob. */
  lemma {:induction false} RegularFindsBlob<R>(
    gs: seq<SegmentView<R>>, word: nat, k: nat, i: nat, j: nat, flags: uint64, offset: uint64, img: bytes, off: nat)
    requires ArchiveLocked(gs, word) && !IsReexport(flags) && !IsResolver(flags)
    requires k < |gs| && gs[k].Regular() && i < |gs[k].sections| && j < |gs[k].sections[i].content|
    requires gs[k].sections[i].content[j].BuiltSize(word) > 0
    requires offset == gs[k].sections[i].content[j].Start().offset && Has(img, off, Info(Regular(flags, offset)))
    ensures ParseInfo(img, off, gs) == Ok(Regular(flags, offset))
    ensures SegmentLookup(gs, offset) == Some(gs[k].sections[i].content[j].Start().vmaddr)
  {
    hide *;
    OffsetFindsVmaddr(gs, word, k, i, j);
    RegularSound(gs, flags, offset);
    InfoReadsBack(img, off, Regular(flags, offset), gs);
  }

  lemma {:induction false} RegularSound<R>(gs: seq<SegmentView<R>>, flags: uint64, offset: uint64)
    requires !IsReexport(flags) && !IsResolver(flags) && SegmentLookup(gs, offset).Some?
    ensures Sound(Regular(flags, offset), gs)
  {
  }

  // ----- parsing -----

  /** Where an edge leads. */
  function Target(diff: uint64, start: nat): uint64
  {
    (diff + start) % TWO_64
  }

  /** ParseNode. `fuel` bounds the depth of the radix tree: the original recurses forever on a cycle of edges. */
  function ParseNode<R>(img: bytes, off: nat, start: nat, gs: seq<SegmentView<R>>, fuel: nat): Result<Node>
    decreases fuel, 1, 0
  {
    if fuel == 0 then Err(OutOfFuel)
    else
      var (size, o1) :- ReadUleb(img, off);
      var value :- ParseValue(img, o1, size, gs);
      if o1 + size >= |img| then Err(PastEnd)
      else ParseEdges(img, o1 + size + 1, img[o1 + size], start, gs, fuel, Trie(value, []))
  }

  function ParseValue<R>(img: bytes, off: nat, size: uint64, gs: seq<SegmentView<R>>): Result<Option<Export>>
  {
    if size == 0 then Ok(None)
    else
      var e :- ParseInfo(img, off, gs);
      Ok(Some(e))
  }

  /** One edge: its label, the subtree it leads to, and where the next edge stands. */
  function ParseEdge<R>(
    img: bytes, off: nat, start: nat, gs: seq<SegmentView<R>>, fuel: nat, cur: Node): Result<(Node, nat)>
    requires fuel > 0
    decreases fuel, 0, 0
  {
    var name :- CString(img, off);
    var (diff, next) :- ReadUleb(img, off + |name| + 1);
    var sub :- ParseNode(img, Target(diff, start), start, gs, fuel - 1);
    Ok((SetAt(cur, name, sub), next))
  }

  /** The loop over the `n` remaining edges; `cur` is the node built so far. */
  function ParseEdges<R>(
    img: bytes, off: nat, n: nat, start: nat, gs: seq<SegmentView<R>>, fuel: nat, cur: Node): Result<Node>
    requires fuel > 0
    decreases fuel, 0, n
  {
    if n == 0 then Ok(cur)
    else
      var (cur', next) :- ParseEdge(img, off, start, gs, fuel, cur);
      ParseEdges(img, next, n - 1, start, gs, fuel, cur')
  }

  method ParseOneEdge<R>(img: bytes, off: nat, start: nat, gs: seq<SegmentView<R>>, fuel: nat, cur: Node)
    returns (r: Result<(Node, nat)>)
    requires fuel > 0
    ensures r == ParseEdge(img, off, start, gs, fuel, cur)
    decreases fuel, 0
  {
    hide CString, ReadUleb, SetAt, ParseNode;
    var name := CString(img, off);
    if name.Err? {
      return Err(name.reason);
    }
    var edge := Leb128Decode(img, off + |name.value| + 1);
    if edge.Err? {
      return Err(edge.reason);
    }
    var sub := Parse(img, Target(edge.value.0, start), start, gs, fuel - 1);
    if sub.Err? {
      return Err(sub.reason);
    }
    return Ok((SetAt(cur, name.value, sub.value), edge.value.1));
  }

  method ParseEdgeTable<R>(
    img: bytes, off: nat, nedges: nat, start: nat, gs: seq<SegmentView<R>>, fuel: nat, node: Node)
    returns (r: Result<Node>)
    requires fuel > 0
    ensures r == ParseEdges(img, off, nedges, start, gs, fuel, node)
    decreases fuel, 1
  {
    hide ParseEdge;
    var curnode, at: nat, i: nat := node, off, 0;
    while i < nedges
      invariant i <= nedges
      invariant ParseEdges(img, off, nedges, start, gs, fuel, node) ==
                ParseEdges(img, at, nedges - i, start, gs, fuel, curnode)
    {
      var edge := ParseOneEdge(img, at, start, gs, fuel, curnode);
      if edge.Err? {
        return Err(edge.reason);
      }
      curnode, at, i := edge.value.0, edge.value.1, i + 1;
    }
    return Ok(curnode);
  }

  method Parse<R>(img: bytes, off: nat, start: nat, gs: seq<SegmentView<R>>, fuel: nat) returns (r: Result<Node>)
    ensures r == ParseNode(img, off, start, gs, fuel)
    decreases fuel, 2
  {
    hide ReadUleb, ParseEdges, ParseValue;
    if fuel == 0 {
      return Err(OutOfFuel);
    }
    var info := Leb128Decode(img, off);
    if info.Err? {
      return Err(info.reason);
    }
    var (size, o1) := info.value;
    var value := ParseValue(img, o1, size, gs);
    if value.Err? {
      return Err(value.reason);
    }
    if o1 + size >= |img| {
      return Err(PastEnd);
    }
    r := ParseEdgeTable(img, o1 + size + 1, img[o1 + size], start, gs, fuel, Trie(value.value, []));
  }

  // ----- radix trees -----

  datatype Edge = Edge(name: bytes, sub: Radix)

  datatype Radix = Radix(value: Option<Export>, edges: seq<Edge>)

  /** The radix tree that stands at `off`. */
  ghost predicate RadixAt<R>(img: bytes, off: nat, start: nat, gs: seq<SegmentView<R>>, r: Radix)
    decreases r, 1, 0
  {
    var info := ReadUleb(img, off);
    && info.Ok?
    && var (size, o1) := info.value;
       && ParseValue(img, o1, size, gs) == Ok(r.value)
       && o1 + size < |img| && img[o1 + size] == |r.edges|
       && EdgesAt(img, o1 + size + 1, start, gs, r, 0)
  }

  ghost predicate EdgesAt<R>(img: bytes, off: nat, start: nat, gs: seq<SegmentView<R>>, r: Radix, i: nat)
    requires i <= |r.edges|
    decreases r, 0, |r.edges| - i
  {
    i < |r.edges| ==>
      && CString(img, off) == Ok(r.edges[i].name)
      && var entry := ReadUleb(img, off + |r.edges[i].name| + 1);
         && entry.Ok?
         && RadixAt(img, Target(entry.value.0, start), start, gs, r.edges[i].sub)
         && EdgesAt(img, entry.value.1, start, gs, r, i + 1)
  }

  /** The character trie: every edge is walked character by character, the last one to arrive wins. */
  function Expand(r: Radix): Node
    decreases r, 1, 0
  {
    ExpandEdges(r, |r.edges|)
  }

  function ExpandEdges(r: Radix, n: nat): Node
    requires n <= |r.edges|
    decreases r, 0, n
  {
    if n == 0 then Trie(r.value, [])
    else SetAt(ExpandEdges(r, n - 1), r.edges[n - 1].name, Expand(r.edges[n - 1].sub))
  }

  function Depth(r: Radix): (d: nat)
    ensures d >= 1
    decreases r, 1, 0
  {
    1 + EdgesDepth(r, |r.edges|)
  }

  function EdgesDepth(r: Radix, n: nat): nat
    requires n <= |r.edges|
    decreases r, 0, n
  {
    if n == 0 then 0
    else
      var d, rest := Depth(r.edges[n - 1].sub), EdgesDepth(r, n - 1);
      if d > rest then d else rest
  }

  lemma {:induction false} DepthBelow(r: Radix, n: nat, i: nat)
    requires i < n <= |r.edges|
    ensures Depth(r.edges[i].sub) <= EdgesDepth(r, n)
    decreases n
  {
    if i < n - 1 {
      DepthBelow(r, n - 1, i);
    }
  }

  /** On the image of any radix tree ParseNode builds its character trie. */
  lemma {:induction false} ParseExpands<R>(
    img: bytes, off: nat, start: nat, gs: seq<SegmentView<R>>, r: Radix, fuel: nat)
    requires RadixAt(img, off, start, gs, r) && fuel >= Depth(r)
    ensures ParseNode(img, off, start, gs, fuel) == Ok(Expand(r))
    decreases r, 1, 0
  {
    hide ReadUleb, ParseValue;
    var (size, o1) := ReadUleb(img, off).value;
    assert ExpandEdges(r, 0) == Trie(r.value, []);
    ParseEdgesExpands(img, o1 + size + 1, start, gs, r, fuel, 0);
  }

  lemma {:induction false} ParseEdgesExpands<R>(
    img: bytes, off: nat, start: nat, gs: seq<SegmentView<R>>, r: Radix, fuel: nat, i: nat)
    requires i <= |r.edges| && EdgesAt(img, off, start, gs, r, i) && fuel >= Depth(r)
    ensures ParseEdges(img, off, |r.edges| - i, start, gs, fuel, ExpandEdges(r, i)) == Ok(Expand(r))
    decreases r, 0, |r.edges| - i
  {
    hide ReadUleb, CString, RadixAt, ParseNode, SetAt;
    if i < |r.edges| {
      var e := r.edges[i];
      var (diff, next) := ReadUleb(img, off + |e.name| + 1).value;
      DepthBelow(r, |r.edges|, i);
      ParseExpands(img, Target(diff, start), start, gs, e.sub, fuel - 1);
      ParseEdgesExpands(img, next, start, gs, r, fuel, i + 1);
    }
  }

  /** Some chain of edges spells `key` and ends at a node with value `v`. */
  ghost predicate HasEntry(r: Radix, key: bytes, v: Export)
    decreases r
  {
    || (key == [] && r.value == Some(v))
    || exists i :: 0 <= i < |r.edges| && r.edges[i].name <= key
                   && HasEntry(r.edges[i].sub, key[|r.edges[i].name|..], v)
  }

  /** Edges are labelled, and siblings start with different characters. */
  ghost predicate Proper(r: Radix)
    decreases r
  {
    && (forall i :: 0 <= i < |r.edges| ==> r.edges[i].name != [] && Proper(r.edges[i].sub))
    && (forall i, j :: 0 <= i < j < |r.edges| && r.edges[i].name != [] && r.edges[j].name != [] ==>
          r.edges[i].name[0] != r.edges[j].name[0])
  }

  lemma {:induction false} ExpandEdgesValue(r: Radix, n: nat)
    requires Proper(r) && n <= |r.edges|
    ensures ExpandEdges(r, n).value == r.value
    decreases n
  {
    hide Expand;
    if n == 0 {
    } else {
      assert r.edges[n - 1].name != [];
      ExpandEdgesValue(r, n - 1);
    }
  }

  /** At most one edge can start a key. */
  lemma {:induction false} OneEdge(r: Radix, key: bytes, i: nat, j: nat)
    requires Proper(r) && i < |r.edges| && j < |r.edges| && r.edges[i].name <= key && r.edges[j].name <= key
    ensures i == j
  {
    assert r.edges[i].name[0] == key[0] == r.edges[j].name[0];
  }

  /** With the first `n` edges in place, the edge that starts `key` decides its value. */
  lemma {:induction false} ExpandEdgesLookup(r: Radix, n: nat, key: bytes, i: nat)
    requires Proper(r) && n <= |r.edges| && i < n && r.edges[i].name <= key
    ensures Lookup(ExpandEdges(r, n), key) == Lookup(Expand(r.edges[i].sub), key[|r.edges[i].name|..])
    decreases n
  {
    hide Expand, SetAt, Lookup, Proper;
    var e := r.edges[n - 1];
    SetAtLookup(ExpandEdges(r, n - 1), e.name, Expand(e.sub), key);
    if i < n - 1 {
      if e.name <= key {
        OneEdge(r, key, i, n - 1);
      }
      ExpandEdgesLookup(r, n - 1, key, i);
    }
  }

  lemma {:induction false} ExpandEdgesMiss(r: Radix, n: nat, key: bytes)
    requires n <= |r.edges| && key != [] && forall i :: 0 <= i < n ==> !(r.edges[i].name <= key)
    ensures Lookup(ExpandEdges(r, n), key) == None
    decreases n
  {
    hide Expand, SetAt;
    if n == 0 {
    } else {
      hide Lookup;
      SetAtLookup(ExpandEdges(r, n - 1), r.edges[n - 1].name, Expand(r.edges[n - 1].sub), key);
      ExpandEdgesMiss(r, n - 1, key);
    }
  }

  /**
   Path-compressed input: the character trie of a radix tree with labelled edges and distinct first characters
   maps a key to a value exactly when some chain of labels spells the key and ends at the value.
   */
  lemma {:induction false} ExpandDenotes(r: Radix, key: bytes, v: Export)
    requires Proper(r)
    ensures Lookup(Expand(r), key) == Some(v) <==> HasEntry(r, key, v)
    decreases r
  {
    if i :| 0 <= i < |r.edges| && r.edges[i].name <= key {
      var e := r.edges[i];
      assert e.name != [] && Proper(e.sub);
      ExpandEdgesLookup(r, |r.edges|, key, i);
      ExpandDenotes(e.sub, key[|e.name|..], v);
      forall j | 0 <= j < |r.edges| && r.edges[j].name <= key ensures j == i {
        OneEdge(r, key, i, j);
      }
    } else if key == [] {
      ExpandEdgesValue(r, |r.edges|);
      assert forall i :: 0 <= i < |r.edges| ==> r.edges[i].name != [];
    } else {
      ExpandEdgesMiss(r, |r.edges|, key);
    }
  }
}
