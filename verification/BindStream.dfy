/**
 Writing bind and lazy bind streams (src/core/dyldinfo.cc), reading them back, and the lazy index: the parser's
 index of a node, the index Build hands out (src/core/build.cc) and the number pushed by the node's stub
 (src/core/stub_helper.cc) are one number.
 */
module BindStream {
  import opened Wrappers
  import opened Arith
  import opened Images
  import opened Leb128
  import opened Fixups
  import opened Bind
  import Rebase
  import Blobs
  import Builder
  import Emit

  /** A bind node: `dylib` is the id of its library, `target` the blob it fills, if one was found. */
  datatype Node = Node(
    ty: nibble, addend: int, dylib: Option<nat>, sym: bytes, flags: nibble, target: Option<Target>)
  {
    predicate Active() { target.Some? && target.value.active }

    /** `size()`, predicted from file offsets. */
    function Size(lazy: bool): nat {
      if !Active() then 0
      else if lazy then (1 + |Uleb(target.value.FileOff())|) + 1 + (1 + (|sym| + 1)) + 1 + 1
      else 1 + 1 + (1 + |Sleb(addend)|) + (1 + |Uleb(target.value.FileOff())|) + (1 + (|sym| + 1)) + 1
    }

    function SegOff(): bytes
      requires Active()
    {
      [OrByte(0x70, target.value.segId)] + Uleb(target.value.VmOff())
    }

    function Symbol(): bytes
    {
      [OrByte(0x40, flags)] + (sym + [0])
    }

    /** What `Emit` writes, computed from vmaddrs. */
    function Bytes(lazy: bool): bytes
      requires Active() && dylib.Some?
    {
      if lazy then SegOff() + [OrByte(0x10, dylib.value)] + Symbol() + [0x90] + [0x00]
      else
        [OrByte(0x10, dylib.value)] + [OrByte(0x50, ty)] + [0x60] + Sleb(addend) + SegOff() + Symbol() + [0x90]
    }
  }

  function SizeSum(nodes: seq<Node>, lazy: bool): nat
  {
    if nodes == [] then 0 else nodes[0].Size(lazy) + SizeSum(nodes[1..], lazy)
  }

  method StreamSize(nodes: seq<Node>, lazy: bool, word: nat) returns (size: nat)
    requires word > 0
    ensures size == Rebase.Reserved(SizeSum(nodes, lazy), word)
  {
    size := 0;
    for i := 0 to |nodes|
      invariant size + SizeSum(nodes[i..], lazy) == SizeSum(nodes, lazy)
    {
      assert nodes[i..][1..] == nodes[i + 1..];
      size := size + nodes[i].Size(lazy);
    }
    if size > 0 {
      size := size + 1;
    }
    size := AlignUp(size, word);
  }

  /** `None` is a null library pointer. */
  function EmitNodes(nodes: seq<Node>, lazy: bool, data: bytes, off: nat): Option<(bytes, nat)>
    decreases |nodes|
  {
    if nodes == [] then Some((data, off))
    else if !nodes[0].Active() then EmitNodes(nodes[1..], lazy, data, off)
    else if nodes[0].dylib.None? then None
    else EmitNodes(nodes[1..], lazy, Splice(data, off, nodes[0].Bytes(lazy)), off + nodes[0].Size(lazy))
  }

  function EmitStream(nodes: seq<Node>, lazy: bool, data: bytes, off: nat): Option<bytes>
  {
    match EmitNodes(nodes, lazy, data, off)
    case None => None
    case Some((out, end)) => Some(if nodes == [] then out else Splice(out, end, [0]))
  }

  method EmitSegOff(n: Node, img: Image, offset: nat) returns (end: nat)
    requires n.Active()
    modifies img
    ensures img.data == Splice(old(img.data), offset, n.SegOff()) && end == offset + |n.SegOff()|
  {
    hide Splice, Uleb, OrByte;
    ghost var before := img.data;
    img.Put(offset, OrByte(0x70, n.target.value.segId));
    var len := Leb128Encode(img, offset + 1, n.target.value.VmOff());
    SpliceConcat(before, offset, [OrByte(0x70, n.target.value.segId)], Uleb(n.target.value.VmOff()));
    return offset + 1 + len;
  }

  method EmitSymbol(n: Node, img: Image, offset: nat) returns (end: nat)
    modifies img
    ensures img.data == Splice(old(img.data), offset, n.Symbol()) && end == offset + |n.Symbol()|
  {
    hide Splice, OrByte;
    ghost var before := img.data;
    img.Put(offset, OrByte(0x40, n.flags));
    img.Copy(offset + 1, n.sym + [0]);
    SpliceConcat(before, offset, [OrByte(0x40, n.flags)], n.sym + [0]);
    return offset + 1 + |n.sym| + 1;
  }

  method EmitLazyNode(n: Node, img: Image, offset: nat)
    requires n.Active() && n.dylib.Some?
    modifies img
    ensures img.data == Splice(old(img.data), offset, n.Bytes(true))
  {
    hide Splice, Uleb, OrByte, Node.SegOff, Node.Symbol;
    ghost var before, done := img.data, n.SegOff();
    var at := EmitSegOff(n, img, offset);
    img.Put(at, OrByte(0x10, n.dylib.value));
    SpliceConcat(before, offset, done, [OrByte(0x10, n.dylib.value)]);
    done := done + [OrByte(0x10, n.dylib.value)];
    at := EmitSymbol(n, img, at + 1);
    SpliceConcat(before, offset, done, n.Symbol());
    done := done + n.Symbol();
    img.Put(at, 0x90);
    SpliceConcat(before, offset, done, [0x90]);
    img.Put(at + 1, 0x00);
    SpliceConcat(before, offset, done + [0x90], [0x00]);
  }

  method EmitPlainNode(n: Node, img: Image, offset: nat)
    requires n.Active() && n.dylib.Some?
    modifies img
    ensures img.data == Splice(old(img.data), offset, n.Bytes(false))
  {
    hide Splice, Uleb, Sleb, OrByte, Node.SegOff, Node.Symbol;
    ghost var before, done := img.data, [OrByte(0x10, n.dylib.value)];
    img.Put(offset, OrByte(0x10, n.dylib.value));
    img.Put(offset + 1, OrByte(0x50, n.ty));
    SpliceConcat(before, offset, done, [OrByte(0x50, n.ty)]);
    done := done + [OrByte(0x50, n.ty)];
    img.Put(offset + 2, 0x60);
    SpliceConcat(before, offset, done, [0x60]);
    done := done + [0x60];
    var len := SlebEncodeAt(img, offset + 3, n.addend);
    SpliceConcat(before, offset, done, Sleb(n.addend));
    done := done + Sleb(n.addend);
    var at := EmitSegOff(n, img, offset + 3 + len);
    SpliceConcat(before, offset, done, n.SegOff());
    done := done + n.SegOff();
    at := EmitSymbol(n, img, at);
    SpliceConcat(before, offset, done, n.Symbol());
    img.Put(at, 0x90);
    SpliceConcat(before, offset, done + n.Symbol(), [0x90]);
  }

  method EmitNode(n: Node, lazy: bool, img: Image, offset: nat)
    requires n.Active() && n.dylib.Some?
    modifies img
    ensures img.data == Splice(old(img.data), offset, n.Bytes(lazy))
  {
    hide *;
    if lazy {
      EmitLazyNode(n, img, offset);
    } else {
      EmitPlainNode(n, img, offset);
    }
  }

  method WriteStream(nodes: seq<Node>, lazy: bool, img: Image, offset: nat) returns (ok: bool)
    modifies img
    ensures ok <==> EmitStream(nodes, lazy, old(img.data), offset).Some?
    ensures ok ==> EmitStream(nodes, lazy, old(img.data), offset) == Some(img.data)
  {
    hide Node.Bytes, Node.Size, Splice;
    var at: nat := offset;
    for i := 0 to |nodes|
      invariant EmitNodes(nodes, lazy, old(img.data), offset) == EmitNodes(nodes[i..], lazy, img.data, at)
    {
      assert nodes[i..][1..] == nodes[i + 1..];
      if nodes[i].Active() {
        if nodes[i].dylib.None? {
          return false;
        }
        EmitNode(nodes[i], lazy, img, at);
        at := at + nodes[i].Size(lazy);
      }
    }
    if nodes != [] {
      img.Put(at, 0);
    }
    return true;
  }

  // ----- predicted size, emitted size -----

  /** Fits the four-bit fields of the stream and stands in lockstep with its segment. */
  predicate Sound(n: Node, segs: seq<uint64>)
  {
    n.Active() ==>
      && n.target.value.InStep() && n.target.value.Seated(segs)
      && n.dylib.Some? && n.dylib.value < 16 && 0 !in n.sym
  }

  predicate AllSound(nodes: seq<Node>, segs: seq<uint64>)
  {
    forall i :: 0 <= i < |nodes| ==> Sound(nodes[i], segs)
  }

  predicate AllLinked(nodes: seq<Node>)
  {
    forall i :: 0 <= i < |nodes| && nodes[i].Active() ==> nodes[i].dylib.Some? && nodes[i].target.value.InStep()
  }

  predicate SomeActive(nodes: seq<Node>)
  {
    exists i :: 0 <= i < |nodes| && nodes[i].Active()
  }

  function Stream(nodes: seq<Node>, lazy: bool): bytes
    requires AllLinked(nodes)
  {
    if nodes == [] then []
    else (if nodes[0].Active() then nodes[0].Bytes(lazy) else []) + Stream(nodes[1..], lazy)
  }

  lemma {:induction false} NodeSizeIsLength(n: Node, lazy: bool)
    requires n.Active() && n.dylib.Some? && n.target.value.InStep()
    ensures |n.Bytes(lazy)| == n.Size(lazy) > 0
  {
    hide Uleb, Sleb, OrByte;
    assert n.target.value.FileOff() == n.target.value.VmOff();
  }

  /** In lockstep the predicted sizes are the emitted ones; some bytes are emitted exactly when a node is active. */
  lemma {:induction false} SizeIsLength(nodes: seq<Node>, lazy: bool)
    requires AllLinked(nodes)
    ensures |Stream(nodes, lazy)| == SizeSum(nodes, lazy)
    ensures SizeSum(nodes, lazy) > 0 <==> SomeActive(nodes)
  {
    hide Node.Bytes;
    if nodes == [] {
    } else {
      SizeIsLength(nodes[1..], lazy);
      if nodes[0].Active() {
        NodeSizeIsLength(nodes[0], lazy);
      } else if SomeActive(nodes) {
        var i :| 0 <= i < |nodes| && nodes[i].Active();
        assert nodes[1..][i - 1].Active();
      }
      if SomeActive(nodes[1..]) {
        var i :| 0 <= i < |nodes[1..]| && nodes[1..][i].Active();
        assert nodes[i + 1].Active();
      }
    }
  }

  /** The stream with its DONE fits the space reserved for it exactly when the list is empty or some node is active. */
  lemma {:induction false} StreamFitsIff(nodes: seq<Node>, lazy: bool, word: nat)
    requires AllLinked(nodes) && word > 0
    ensures |Stream(nodes, lazy)| + (if nodes == [] then 0 else 1) <= Rebase.Reserved(SizeSum(nodes, lazy), word) <==>
            nodes == [] || SomeActive(nodes)
  {
    SizeIsLength(nodes, lazy);
    AlignUpIsLeast(0, word);
  }

  lemma {:induction false} EmitNodesStream(nodes: seq<Node>, lazy: bool, data: bytes, off: nat)
    requires AllLinked(nodes)
    ensures EmitNodes(nodes, lazy, data, off) ==
            Some((if Stream(nodes, lazy) == [] then data else Splice(data, off, Stream(nodes, lazy)),
                  off + |Stream(nodes, lazy)|))
    decreases |nodes|
  {
    hide Splice, Node.Bytes, Node.Size;
    if nodes == [] {
    } else {
      var rest := nodes[1..];
      if nodes[0].Active() {
        var bs := nodes[0].Bytes(lazy);
        NodeSizeIsLength(nodes[0], lazy);
        EmitNodesStream(rest, lazy, Splice(data, off, bs), off + |bs|);
        SpliceConcat(data, off, bs, Stream(rest, lazy));
        assert bs + [] == bs;
      } else {
        EmitNodesStream(rest, lazy, data, off);
        assert [] + Stream(rest, lazy) == Stream(rest, lazy);
      }
    }
  }

  /** Emit writes one contiguous stream ended by DONE. */
  lemma {:induction false} EmitWritesStream(nodes: seq<Node>, lazy: bool, data: bytes, off: nat)
    requires AllLinked(nodes)
    ensures EmitStream(nodes, lazy, data, off) ==
            Some(if nodes == [] then data else Splice(data, off, Stream(nodes, lazy) + [0]))
  {
    EmitNodesStream(nodes, lazy, data, off);
    hide Splice, EmitNodes;
    SpliceConcat(data, off, Stream(nodes, lazy), [0]);
    assert [] + [0] == [0];
  }

  // ----- reading a stream back -----

  lemma {:induction false} SegOffReads(n: Node, img: bytes, it: nat, end: nat, lazy: bool)
    requires n.Active() && n.target.value.segId < 16 && Has(img, it, n.SegOff())
    ensures ReadOp(img, it, end, lazy) ==
            Ok((SetSegOff(n.target.value.segId, n.target.value.VmOff()), it + |n.SegOff()|))
  {
    var t := n.target.value;
    OrLow(7, t.segId);
    hide Uleb, ReadUleb, Has, OrByte;
    HasParts(img, it, [OrByte(0x70, t.segId)], Uleb(t.VmOff()));
    HasByte(img, it, OrByte(0x70, t.segId));
    ReadBack(img, it + 1, t.VmOff());
  }

  lemma {:induction false} SymbolOp(img: bytes, it: nat, end: nat, lazy: bool, flags: nibble, len: nat)
    requires it < |img| && img[it] == 0x40 + flags && it < end < TWO_64
    requires StrNLen(img, it + 1, end - (it + 1)) == Ok(len)
    ensures ReadOp(img, it, end, lazy) == Ok((SetSymbol(flags, it + 1), it + 1 + len + 1))
  {
    hide StrNLen;
    assert (end - (it + 1)) % TWO_64 == end - (it + 1);
  }

  lemma {:induction false} SymbolIs(n: Node)
    ensures n.Symbol() == [OrByte(0x40, n.flags)] + (n.sym + [0])
    ensures TWO_64 == 0x1_0000_0000_0000_0000
  {
    hide OrByte;
  }

  lemma {:induction false} SymbolReads(n: Node, img: bytes, it: nat, end: nat, lazy: bool)
    requires 0 !in n.sym && Has(img, it, n.Symbol()) && it + |n.Symbol()| <= end < TWO_64
    ensures ReadOp(img, it, end, lazy) == Ok((SetSymbol(n.flags, it + 1), it + |n.Symbol()|))
    ensures CString(img, it + 1) == Ok(n.sym)
  {
    hide *;
    SymbolIs(n);
    OrLow(4, n.flags);
    HasParts(img, it, [OrByte(0x40, n.flags)], n.sym + [0]);
    HasByte(img, it, OrByte(0x40, n.flags));
    NameReads(img, it + 1, n.sym, end - (it + 1));
    SymbolOp(img, it, end, lazy, n.flags, |n.sym|);
  }

  lemma {:induction false} ByteReads(img: bytes, it: nat, end: nat, lazy: bool, high: nibble, v: nibble)
    requires Has(img, it, [OrByte(high * 16, v)])
    ensures high == 0 ==> ReadOp(img, it, end, lazy) == Ok((Done, it + 1))
    ensures high == 1 ==> ReadOp(img, it, end, lazy) == Ok((SetOrdinal(v), it + 1))
    ensures high == 5 ==> ReadOp(img, it, end, lazy) == Ok((SetType(v), it + 1))
    ensures high == 9 ==> ReadOp(img, it, end, lazy) == Ok((DoBind, it + 1))
  {
    OrLow(high, v);
    HasByte(img, it, OrByte(high * 16, v));
  }

  /** Where each part of a lazy node stands. */
  lemma {:induction false} LazyParts(n: Node, img: bytes, it: nat)
    requires n.Active() && n.dylib.Some? && n.dylib.value < 16 && Has(img, it, n.Bytes(true))
    ensures
      var i1 := it + |n.SegOff()|;
      var i2 := i1 + 1 + |n.Symbol()|;
      && Has(img, it, n.SegOff()) && Has(img, i1, [OrByte(0x10, n.dylib.value)]) && Has(img, i1 + 1, n.Symbol())
      && Has(img, i2, [0x90]) && Has(img, i2 + 1, [0x00]) && i2 + 2 == it + |n.Bytes(true)|
  {
    hide Has, OrByte, Node.SegOff, Node.Symbol;
    var a, b := n.SegOff(), [OrByte(0x10, n.dylib.value)];
    HasParts(img, it, a + b + n.Symbol() + [0x90], [0x00]);
    HasParts(img, it, a + b + n.Symbol(), [0x90]);
    HasParts(img, it, a + b, n.Symbol());
    HasParts(img, it, a, b);
  }

  /** The opcodes of a lazy node. */
  lemma {:induction false} LazyOps(n: Node, segs: seq<uint64>, img: bytes, it: nat, end: nat)
    requires n.Active() && Sound(n, segs) && Has(img, it, n.Bytes(true))
    requires it + |n.Bytes(true)| <= end < TWO_64
    ensures
      var i1 := it + |n.SegOff()|;
      var i2 := i1 + 1 + |n.Symbol()|;
      && ReadOp(img, it, end, true) == Ok((SetSegOff(n.target.value.segId, n.target.value.VmOff()), i1))
      && ReadOp(img, i1, end, true) == Ok((SetOrdinal(n.dylib.value), i1 + 1))
      && ReadOp(img, i1 + 1, end, true) == Ok((SetSymbol(n.flags, i1 + 2), i2))
      && CString(img, i1 + 2) == Ok(n.sym)
      && ReadOp(img, i2, end, true) == Ok((DoBind, i2 + 1))
      && ReadOp(img, i2 + 1, end, true) == Ok((Done, i2 + 2))
      && i2 + 2 == it + |n.Bytes(true)|
  {
    hide *;
    SoundIs(n, segs);
    LazyParts(n, img, it);
    OrLow(9, 0);
    OrLow(0, 0);
    var i1 := it + |n.SegOff()|;
    var i2 := i1 + 1 + |n.Symbol()|;
    SegOffReads(n, img, it, end, true);
    ByteReads(img, i1, end, true, 1, n.dylib.value);
    SymbolReads(n, img, i1 + 1, end, true);
    ByteReads(img, i2, end, true, 9, 0);
    ByteReads(img, i2 + 1, end, true, 0, 0);
  }

  lemma {:induction false} SoundIs(n: Node, segs: seq<uint64>)
    requires n.Active() && Sound(n, segs)
    ensures n.target.Some? && n.dylib.Some? && n.dylib.value < 16 && 0 !in n.sym && n.target.value.segId < 16
    ensures n.target.value.InStep() && n.target.value.Seated(segs)
  {
  }

  lemma {:induction false} InterpStep(
    img: bytes, begin: nat, it: nat, end: nat, lazy: bool, c: Cursor, segs: seq<uint64>, word: nat,
    op: Opcode, next: nat, c': Cursor, out: seq<Bindee>)
    requires begin <= it && it != end && it < next && ReadOp(img, it, end, lazy) == Ok((op, next))
    requires Apply(img, op, next - begin, c, segs, word) == Ok((c', out))
    ensures Interp(img, begin, it, end, lazy, c, segs, word) ==
            Prefixed(out, Interp(img, begin, next, end, lazy, c', segs, word))
    ensures out == [] ==> Interp(img, begin, it, end, lazy, c, segs, word) ==
                          Interp(img, begin, next, end, lazy, c', segs, word)
  {
    hide ReadOp, Apply;
    PrefixedTwice([], [], Interp(img, begin, next, end, lazy, c', segs, word));
  }

  /** What an active node makes the parser record, with the cursor it was read at. */
  function Recorded(n: Node, ty: nibble, addend: uint64, index: uint32): seq<Bindee>
    requires n.Active() && n.dylib.Some? && n.dylib.value < 16
  {
    var v := n.target.value.loc.vmaddr % TWO_64;
    if v == 0 then [] else [Bindee(v, ty, addend, n.dylib.value, n.sym, n.flags, index)]
  }

  /** The cursor after a lazy node that ends at `pos`. */
  function AfterLazy(n: Node, word: nat, sym: nat, pos: nat): Cursor
    requires n.Active()
  {
    Cursor((n.target.value.loc.vmaddr % TWO_64 + word) % TWO_64, 0, 0, 0, Some(sym), 0, pos % TWO_32)
  }

  /** The effects of the opcodes of a lazy node. */
  lemma {:induction false} LazyEffects(
    n: Node, segs: seq<uint64>, img: bytes, c: Cursor, sym: nat, pos: nat, word: nat)
    returns (c1: Cursor, c2: Cursor, c3: Cursor, c4: Cursor)
    requires n.Active() && Sound(n, segs) && CString(img, sym) == Ok(n.sym)
    ensures forall p :: Apply(img, SetSegOff(n.target.value.segId, n.target.value.VmOff()), p, c, segs, word) == Ok((c1, []))
    ensures forall p :: Apply(img, SetOrdinal(n.dylib.value), p, c1, segs, word) == Ok((c2, []))
    ensures forall p :: Apply(img, SetSymbol(n.flags, sym), p, c2, segs, word) == Ok((c3, []))
    ensures forall p :: Apply(img, DoBind, p, c3, segs, word) == Ok((c4, Recorded(n, c.ty, c.addend, c.index)))
    ensures Apply(img, Done, pos, c4, segs, word) == Ok((AfterLazy(n, word, sym, pos), []))
  {
    hide CString;
    OffsetReadsBack(n.target.value, segs);
    c1 := c.(vmaddr := n.target.value.loc.vmaddr);
    c2 := c1.(dylib := n.dylib.value);
    c3 := c2.(flags := n.flags, sym := Some(sym));
    c4 := Moved(c3, word);
  }

  /** One emitted lazy node read back, whatever was read before it. */
  lemma {:induction false} LazyNodeReadsBack(
    n: Node, segs: seq<uint64>, img: bytes, begin: nat, it: nat, end: nat, c: Cursor, word: nat) returns (c': Cursor)
    requires n.Active() && Sound(n, segs) && Has(img, it, n.Bytes(true))
    requires begin <= it && it + |n.Bytes(true)| <= end < TWO_64
    ensures c'.ty == 0 && c'.addend == 0 && c'.index == (it + |n.Bytes(true)| - begin) % TWO_32
    ensures n.dylib.Some? && n.dylib.value < 16
    ensures Interp(img, begin, it, end, true, c, segs, word) ==
            Prefixed(Recorded(n, c.ty, c.addend, c.index),
                     Interp(img, begin, it + |n.Bytes(true)|, end, true, c', segs, word))
  {
    hide ReadOp, Apply, Interp, Has, CString, Node.SegOff, Node.Symbol, Node.Bytes, Sound, Recorded, Prefixed, OrByte;
    SoundIs(n, segs);
    LazyOps(n, segs, img, it, end);
    var i1 := it + |n.SegOff()|;
    var i2 := i1 + 1 + |n.Symbol()|;
    var c1, c2, c3, c4 := LazyEffects(n, segs, img, c, i1 + 2, i2 + 2 - begin, word);
    c' := AfterLazy(n, word, i1 + 2, i2 + 2 - begin);
    SegOffLength(n);
    InterpStep(img, begin, it, end, true, c, segs, word,
               SetSegOff(n.target.value.segId, n.target.value.VmOff()), i1, c1, []);
    InterpStep(img, begin, i1, end, true, c1, segs, word, SetOrdinal(n.dylib.value), i1 + 1, c2, []);
    InterpStep(img, begin, i1 + 1, end, true, c2, segs, word, SetSymbol(n.flags, i1 + 2), i2, c3, []);
    InterpStep(img, begin, i2, end, true, c3, segs, word, DoBind, i2 + 1, c4, Recorded(n, c.ty, c.addend, c.index));
    InterpStep(img, begin, i2 + 1, end, true, c4, segs, word, Done, i2 + 2, c', []);
  }

  lemma {:induction false} SegOffLength(n: Node)
    requires n.Active()
    ensures |n.SegOff()| >= 2 && |n.Symbol()| >= 2
  {
  }

  /** What the whole list makes the parser record, the first node standing `base` bytes into the stream. */
  function LazyBindees(nodes: seq<Node>, segs: seq<uint64>, base: nat): seq<Bindee>
    requires AllSound(nodes, segs)
  {
    if nodes == [] then []
    else
      (if nodes[0].Active() then Recorded(nodes[0], 0, 0, base % TWO_32) else [])
      + LazyBindees(nodes[1..], segs, base + nodes[0].Size(true))
  }

  /** `Zeroed` bytes read as DONE again and again. */
  predicate Zeroed(img: bytes, from: nat, to: nat)
  {
    to <= |img| && forall k :: from <= k < to ==> img[k] == 0
  }

  lemma {:induction false} InterpZeros(
    img: bytes, begin: nat, it: nat, end: nat, lazy: bool, c: Cursor, segs: seq<uint64>, word: nat)
    requires begin <= it <= end && Zeroed(img, it, end)
    ensures Interp(img, begin, it, end, lazy, c, segs, word) == Ok([])
    decreases end - it
  {
    if it < end {
      hide Interp;
      var c' := Cursor(c.vmaddr, 0, 0, 0, c.sym, 0, (it + 1 - begin) % TWO_32);
      InterpStep(img, begin, it, end, lazy, c, segs, word, Done, it + 1, c', []);
      InterpZeros(img, begin, it + 1, end, lazy, c', segs, word);
    }
  }

  lemma {:induction false} LazyStreamReads(
    nodes: seq<Node>, segs: seq<uint64>, img: bytes, begin: nat, it: nat, end: nat, c: Cursor, word: nat)
    requires AllSound(nodes, segs) && AllLinked(nodes) && begin <= it && it + |Stream(nodes, true)| <= end < TWO_64
    requires Has(img, it, Stream(nodes, true)) && Zeroed(img, it + |Stream(nodes, true)|, end)
    requires c.ty == 0 && c.addend == 0 && c.index == (it - begin) % TWO_32
    ensures Interp(img, begin, it, end, true, c, segs, word) == Ok(LazyBindees(nodes, segs, it - begin))
    decreases |nodes|
  {
    hide Interp, Has, Node.Bytes, Sound, Zeroed, Recorded, Node.Size;
    if nodes == [] {
      InterpZeros(img, begin, it, end, true, c, segs, word);
    } else {
      var rest := nodes[1..];
      if nodes[0].Active() {
        var bs := nodes[0].Bytes(true);
        NodeSizeIsLength(nodes[0], true);
        HasParts(img, it, bs, Stream(rest, true));
        var c' := LazyNodeReadsBack(nodes[0], segs, img, begin, it, end, c, word);
        LazyStreamReads(rest, segs, img, begin, it + |bs|, end, c', word);
      } else {
        InactiveSize(nodes[0], true);
        assert Stream(nodes, true) == [] + Stream(rest, true) == Stream(rest, true);
        LazyStreamReads(rest, segs, img, begin, it, end, c, word);
        var after := LazyBindees(rest, segs, it - begin);
        assert [] + after == after;
      }
    }
  }

  lemma {:induction false} InactiveSize(n: Node, lazy: bool)
    requires !n.Active()
    ensures n.Size(lazy) == 0
  {
  }

  /** The file as the writer leaves it: padded with zeros up to the reserved size. */
  predicate PaddedTo(img: bytes, from: nat, to: nat)
  {
    from <= to && Zeroed(img, from, to)
  }

  /**
   Lazy round trip: re-parsing the emitted stream records the active nodes at nonzero addresses in order, with
   their libraries, names and flags and type 0, each with the index at which its opcodes start.
   */
  lemma {:induction false} LazyRoundTrip(
    nodes: seq<Node>, segs: seq<uint64>, img: bytes, off: nat, word: nat)
    requires AllSound(nodes, segs) && AllLinked(nodes) && word > 0
    requires Has(img, off, Stream(nodes, true))
    requires var end := off + Rebase.Reserved(SizeSum(nodes, true), word);
      end < TWO_64 && PaddedTo(img, off + |Stream(nodes, true)|, end)
    ensures Interp(img, off, off, off + Rebase.Reserved(SizeSum(nodes, true), word), true, START, segs, word) ==
            Ok(LazyBindees(nodes, segs, 0))
  {
    assert START.ty == 0 && START.addend == 0 && START.index == 0;
    assert Zeroed(img, off + |Stream(nodes, true)|, off + Rebase.Reserved(SizeSum(nodes, true), word));
    hide Interp, Has, Stream, Zeroed, Rebase.Reserved;
    LazyStreamReads(nodes, segs, img, off, off, off + Rebase.Reserved(SizeSum(nodes, true), word), START, word);
  }

  // ----- the lazy index -----

  /** Where the opcodes of node `k` start in the emitted stream. */
  function StartOf(nodes: seq<Node>, k: nat): nat
    requires k <= |nodes|
  {
    SizeSum(nodes[..k], true)
  }

  lemma {:induction false} SizeSumSplit(nodes: seq<Node>, k: nat)
    requires k < |nodes|
    ensures SizeSum(nodes[..k + 1], true) == SizeSum(nodes[..k], true) + nodes[k].Size(true)
  {
    hide Node.Size;
    if k > 0 {
      SizeSumSplit(nodes[1..], k - 1);
      assert nodes[..k + 1][1..] == nodes[1..][..k] && nodes[..k][1..] == nodes[1..][..k - 1];
    } else {
      assert nodes[..1][1..] == [] && nodes[..0] == [];
    }
  }

  /** The bytes of node `k` stand at its start, so the parser gives it that index when it reads the whole stream. */
  lemma {:induction false} StreamHoldsNode(nodes: seq<Node>, img: bytes, off: nat, k: nat)
    requires AllLinked(nodes) && k < |nodes| && nodes[k].Active() && Has(img, off, Stream(nodes, true))
    ensures Has(img, off + StartOf(nodes, k), nodes[k].Bytes(true))
    decreases k
  {
    hide Has, Node.Bytes, Node.Size;
    var first := if nodes[0].Active() then nodes[0].Bytes(true) else [];
    HasParts(img, off, first, Stream(nodes[1..], true));
    if k > 0 {
      if nodes[0].Active() {
        NodeSizeIsLength(nodes[0], true);
      } else {
        InactiveSize(nodes[0], true);
      }
      assert nodes[..k][1..] == nodes[1..][..k - 1];
      StreamHoldsNode(nodes[1..], img, off + |first|, k - 1);
    } else {
      assert nodes[..0] == [];
    }
  }

  lemma {:induction false} StartIs()
    ensures START.ty == 0 && START.addend == 0 && START.index == 0
  {
  }

  lemma {:induction false} SoundAt(nodes: seq<Node>, segs: seq<uint64>, k: nat)
    requires AllSound(nodes, segs) && k < |nodes|
    ensures Sound(nodes[k], segs)
  {
  }

  lemma {:induction false} InStepAt(nodes: seq<Node>, k: nat)
    requires AllLinked(nodes) && k < |nodes| && nodes[k].Active()
    ensures nodes[k].dylib.Some? && nodes[k].target.Some? && nodes[k].target.value.InStep()
  {
  }

  /** Reading only the bytes at a node's index, as the lazy binder does, binds exactly that node. */
  lemma {:induction false} IndexSelectsNode(
    nodes: seq<Node>, segs: seq<uint64>, img: bytes, off: nat, word: nat, k: nat)
    requires AllSound(nodes, segs) && AllLinked(nodes) && k < |nodes| && nodes[k].Active()
    requires Has(img, off, Stream(nodes, true)) && off + StartOf(nodes, k) + nodes[k].Size(true) < TWO_64
    ensures
      var it := off + StartOf(nodes, k);
      Sound(nodes[k], segs) && nodes[k].dylib.Some? && nodes[k].dylib.value < 16
      && Interp(img, it, it, it + nodes[k].Size(true), true, START, segs, word) == Ok(Recorded(nodes[k], 0, 0, 0))
  {
    hide *;
    StartIs();
    SoundAt(nodes, segs, k);
    InStepAt(nodes, k);
    SoundIs(nodes[k], segs);
    StreamHoldsNode(nodes, img, off, k);
    NodeSizeIsLength(nodes[k], true);
    var it := off + StartOf(nodes, k);
    var end := it + nodes[k].Size(true);
    var c' := LazyNodeReadsBack(nodes[k], segs, img, it, it, end, START, word);
    assert Interp(img, it, end, end, true, c', segs, word) == Ok([]) by { InterpEnd(img, it, end, true, c', segs, word); }
    PrefixedTwice(Recorded(nodes[k], 0, 0, 0), [], Ok([]));
  }

  lemma {:induction false} InterpEnd(img: bytes, begin: nat, end: nat, lazy: bool, c: Cursor, segs: seq<uint64>, word: nat)
    requires begin <= end
    ensures Interp(img, begin, end, end, lazy, c, segs, word) == Ok([])
  {
  }

  /** BindInfo::Build: every node takes the next range of the lazy stream. */
  method BuildIndices(nodes: seq<Node>, env: Builder.BuildEnv) returns (indices: seq<uint32>)
    modifies env`lazyBindIndex
    ensures |indices| == |nodes|
    ensures forall k :: 0 <= k < |nodes| ==> indices[k] == (old(env.lazyBindIndex) + StartOf(nodes, k)) % TWO_32
  {
    indices := [];
    ghost var start := env.lazyBindIndex;
    assert nodes[..0] == [];
    for i := 0 to |nodes|
      invariant |indices| == i && env.lazyBindIndex == (start + SizeSum(nodes[..i], true)) % TWO_32
      invariant forall k :: 0 <= k < i ==> indices[k] == (start + StartOf(nodes, k)) % TWO_32
    {
      hide Node.Size;
      var index := env.TakeLazyBindIndex(nodes[i].Size(true));
      SizeSumSplit(nodes, i);
      Wraps32(start + SizeSum(nodes[..i], true), nodes[i].Size(true));
      indices := indices + [index];
    }
  }

  lemma {:induction false} Wraps32(a: int, b: int)
    ensures (a % TWO_32 + b) % TWO_32 == (a + b) % TWO_32
  {
    ModShift(a % TWO_32 + b, a / TWO_32, TWO_32);
    assert a == a / TWO_32 * TWO_32 + a % TWO_32;
  }

  lemma {:induction false} SoundParts(nodes: seq<Node>, segs: seq<uint64>, k: nat)
    requires AllSound(nodes, segs) && k < |nodes|
    ensures AllSound(nodes[..k], segs) && AllSound(nodes[k + 1..], segs) && AllSound(nodes[1..], segs)
    ensures nodes[k].Active() ==> Sound(nodes[k], segs) && nodes[k].dylib.Some? && nodes[k].dylib.value < 16
    ensures nodes[0].Active() ==> nodes[0].dylib.Some? && nodes[0].dylib.value < 16
    ensures TWO_32 == 0x1_0000_0000
  {
    assert Sound(nodes[k], segs) && Sound(nodes[0], segs);
  }

  lemma {:induction false} LazyCons(nodes: seq<Node>, segs: seq<uint64>, base: nat)
    requires AllSound(nodes, segs) && nodes != []
    requires nodes[0].Active() ==> nodes[0].dylib.Some? && nodes[0].dylib.value < 16
    ensures AllSound(nodes[1..], segs)
    ensures LazyBindees(nodes, segs, base) ==
            (if nodes[0].Active() then Recorded(nodes[0], 0, 0, base % TWO_32) else []) +
            LazyBindees(nodes[1..], segs, base + nodes[0].Size(true))
  {
    hide Sound, Recorded, Node.Size;
  }

  lemma {:induction false} NoBindees(nodes: seq<Node>, segs: seq<uint64>, base: nat)
    ensures nodes[..0] == [] && AllSound(nodes[..0], segs) && LazyBindees(nodes[..0], segs, base) == []
  {
  }

  lemma {:induction false} StartCons(nodes: seq<Node>, k: nat)
    requires k < |nodes|
    ensures StartOf(nodes, 0) == 0
    ensures k > 0 ==> StartOf(nodes, k) == nodes[0].Size(true) + StartOf(nodes[1..], k - 1)
  {
    hide Node.Size;
    assert nodes[..0] == [];
    if k > 0 {
      assert nodes[..k][1..] == nodes[1..][..k - 1];
    }
  }

  /**
   The parser records an active node between those before it and those behind it, with the index at which its opcodes
   start.
   */
  lemma {:induction false} RecordedAtStart(nodes: seq<Node>, segs: seq<uint64>, base: nat, k: nat)
    requires AllSound(nodes, segs) && k < |nodes| && nodes[k].Active()
    ensures Sound(nodes[k], segs) && nodes[k].dylib.Some? && nodes[k].dylib.value < 16
    ensures AllSound(nodes[..k], segs) && AllSound(nodes[k + 1..], segs)
    ensures LazyBindees(nodes, segs, base) ==
            LazyBindees(nodes[..k], segs, base) +
            Recorded(nodes[k], 0, 0, (base + StartOf(nodes, k)) % TWO_32) +
            LazyBindees(nodes[k + 1..], segs, base + StartOf(nodes, k) + nodes[k].Size(true))
    decreases k
  {
    hide *;
    SoundParts(nodes, segs, k);
    var here := Recorded(nodes[k], 0, 0, (base + StartOf(nodes, k)) % TWO_32);
    var after := LazyBindees(nodes[k + 1..], segs, base + StartOf(nodes, k) + nodes[k].Size(true));
    LazyCons(nodes, segs, base);
    if k == 0 {
      StartCons(nodes, 0);
      NoBindees(nodes, segs, base);
      assert [] + here + after == here + after;
    } else {
      var first := if nodes[0].Active() then Recorded(nodes[0], 0, 0, base % TWO_32) else [];
      var next := base + nodes[0].Size(true);
      RecordedAtStart(nodes[1..], segs, next, k - 1);
      StartCons(nodes, k);
      assert nodes[..k][1..] == nodes[1..][..k - 1] && nodes[1..][k..] == nodes[k + 1..];
      LazyCons(nodes[..k], segs, base);
      var before := LazyBindees(nodes[1..][..k - 1], segs, next);
      assert first + (before + here + after) == first + before + here + after;
    }
  }

  /** The number read from the last four bytes of the emitted push is the index of the stub's binding. */
  lemma {:induction false} StubPushesIndex<R>(
    b: Blobs.Blob<R>, word: nat, at: map<R, nat>, index: map<nat, uint32>)
    requires b.kind.Stub? && Emit.BlobBytes(b, word, at, index).Some?
    requires b.kind.push.imm.Some? && b.kind.push.imm.value.pointee.None?
    ensures
      var bs, n := Emit.BlobBytes(b, word, at, index).value, |b.kind.push.buf|;
      b.kind.bindee in index && 4 <= n <= |bs| && Emit.FromLe(bs[n - 4..n]) == index[b.kind.bindee]
  {
    var v := index[b.kind.bindee];
    var push := b.kind.push.(imm := Some(b.kind.push.imm.value.(value := v)));
    var p := Emit.InsnBytes(push, b.kind.pushLoc, at).value;
    var n := |b.kind.push.buf|;
    PushEnds(push, b.kind.pushLoc, at);
    hide Emit.InsnBytes, Emit.Le, Emit.FromLe;
    assert Emit.BlobBytes(b, word, at, index).value[n - 4..n] == p[n - 4..];
    IndexReads(v);
  }

  lemma {:induction false} PushEnds<R>(insn: Blobs.Insn<R>, loc: Blobs.Location, at: map<R, nat>)
    requires Emit.InsnBytes(insn, loc, at).Some? && insn.imm.Some? && insn.imm.value.pointee.None?
    ensures var p := Emit.InsnBytes(insn, loc, at).value;
      4 <= |p| && p[|p| - 4..] == Emit.Le(4, insn.imm.value.value)
  {
    hide Emit.Le, Emit.PatchMem, Emit.PatchBranch;
  }

  lemma {:induction false} IndexReads(v: uint32)
    ensures Emit.FromLe(Emit.Le(4, v)) == v
  {
    Emit.FieldHolds(4, v);
    Emit.WordWidths();
  }

  lemma {:induction false} IndexFits(n: nat)
    requires n < TWO_32
    ensures n % TWO_32 == n
  {
  }

  /**
   End to end: in a stream shorter than 4 GiB, the number a stub pushes leads the lazy binder to the opcodes of
   that stub's own binding and to no other.
   */
  lemma {:induction false} StubSelectsBinding<R>(
    b: Blobs.Blob<R>, ptr: nat, at: map<R, nat>, index: map<nat, uint32>,
    nodes: seq<Node>, segs: seq<uint64>, img: bytes, off: nat, word: nat, k: nat)
    requires b.kind.Stub? && Emit.BlobBytes(b, ptr, at, index).Some?
    requires b.kind.push.imm.Some? && b.kind.push.imm.value.pointee.None?
    requires AllSound(nodes, segs) && AllLinked(nodes) && k < |nodes| && nodes[k].Active()
    requires b.kind.bindee in index && index[b.kind.bindee] == StartOf(nodes, k) % TWO_32
    requires StartOf(nodes, k) < TWO_32
    requires Has(img, off, Stream(nodes, true)) && off + StartOf(nodes, k) + nodes[k].Size(true) < TWO_64
    ensures |b.kind.push.buf| >= 4 && |Emit.BlobBytes(b, ptr, at, index).value| >= |b.kind.push.buf|
    ensures nodes[k].dylib.Some? && nodes[k].dylib.value < 16
    ensures
      var bs, n := Emit.BlobBytes(b, ptr, at, index).value, |b.kind.push.buf|;
      var it := off + Emit.FromLe(bs[n - 4..n]);
      Interp(img, it, it, it + nodes[k].Size(true), true, START, segs, word) == Ok(Recorded(nodes[k], 0, 0, 0))
  {
    hide *;
    IndexFits(StartOf(nodes, k));
    StubPushesIndex(b, ptr, at, index);
    IndexSelectsNode(nodes, segs, img, off, word, k);
  }

  // ----- the non-lazy stream -----

  /** Where each part of a node of the non-lazy stream stands. */
  lemma {:induction false} PlainParts(n: Node, img: bytes, it: nat)
    requires n.Active() && n.dylib.Some? && n.dylib.value < 16 && Has(img, it, n.Bytes(false))
    ensures
      var i1 := it + 3 + |Sleb(n.addend)|;
      var i2 := i1 + |n.SegOff()|;
      var i3 := i2 + |n.Symbol()|;
      && Has(img, it, [OrByte(0x10, n.dylib.value)]) && Has(img, it + 1, [OrByte(0x50, n.ty)])
      && Has(img, it + 2, [0x60]) && Has(img, it + 3, Sleb(n.addend))
      && Has(img, i1, n.SegOff()) && Has(img, i2, n.Symbol()) && Has(img, i3, [0x90])
      && i3 + 1 == it + |n.Bytes(false)|
  {
    hide Has, OrByte, Node.SegOff, Node.Symbol, Sleb;
    var a, b, s := [OrByte(0x10, n.dylib.value)], [OrByte(0x50, n.ty)], Sleb(n.addend);
    HasParts(img, it, a + b + [0x60] + s + n.SegOff() + n.Symbol(), [0x90]);
    HasParts(img, it, a + b + [0x60] + s + n.SegOff(), n.Symbol());
    HasParts(img, it, a + b + [0x60] + s, n.SegOff());
    HasParts(img, it, a + b + [0x60], s);
    HasParts(img, it, a + b, [0x60]);
    HasParts(img, it, a, b);
  }

  predicate Int64(n: int) { -0x8000_0000_0000_0000 <= n < 0x8000_0000_0000_0000 }

  lemma {:induction false} AddendReads(img: bytes, it: nat, end: nat, addend: int)
    requires Int64(addend) && Has(img, it, [0x60]) && Has(img, it + 1, Sleb(addend))
    ensures ReadOp(img, it, end, false) ==
            Ok((SetAddend(Value(Sleb(addend)) % TWO_64), it + 1 + |Sleb(addend)|))
  {
    HasByte(img, it, 0x60);
    var rest := img[it + 1 + |Sleb(addend)|..];
    assert img[it + 1..] == Sleb(addend) + rest;
    SlebReadsBackIff(addend, rest);
    hide Sleb, Value, Decode, Has;
  }

  /** The opcodes of a node of the non-lazy stream. */
  lemma {:induction false} PlainOps(n: Node, segs: seq<uint64>, img: bytes, it: nat, end: nat)
    requires n.Active() && Sound(n, segs) && Int64(n.addend) && Has(img, it, n.Bytes(false))
    requires it + |n.Bytes(false)| <= end < TWO_64
    ensures
      var i1 := it + 3 + |Sleb(n.addend)|;
      var i2 := i1 + |n.SegOff()|;
      var i3 := i2 + |n.Symbol()|;
      && ReadOp(img, it, end, false) == Ok((SetOrdinal(n.dylib.value), it + 1))
      && ReadOp(img, it + 1, end, false) == Ok((SetType(n.ty), it + 2))
      && ReadOp(img, it + 2, end, false) == Ok((SetAddend(Value(Sleb(n.addend)) % TWO_64), i1))
      && ReadOp(img, i1, end, false) == Ok((SetSegOff(n.target.value.segId, n.target.value.VmOff()), i2))
      && ReadOp(img, i2, end, false) == Ok((SetSymbol(n.flags, i2 + 1), i3)) && CString(img, i2 + 1) == Ok(n.sym)
      && ReadOp(img, i3, end, false) == Ok((DoBind, i3 + 1))
      && i3 + 1 == it + |n.Bytes(false)|
  {
    hide *;
    SoundIs(n, segs);
    PlainParts(n, img, it);
    OrLow(9, 0);
    var i1 := it + 3 + |Sleb(n.addend)|;
    var i2 := i1 + |n.SegOff()|;
    var i3 := i2 + |n.Symbol()|;
    ByteReads(img, it, end, false, 1, n.dylib.value);
    ByteReads(img, it + 1, end, false, 5, n.ty);
    AddendReads(img, it + 2, end, n.addend);
    SegOffReads(n, img, i1, end, false);
    SymbolReads(n, img, i2, end, false);
    ByteReads(img, i3, end, false, 9, 0);
  }

  /** The cursor after a node of the non-lazy stream. */
  lemma {:induction false} PlainEffects(n: Node, segs: seq<uint64>, img: bytes, c: Cursor, addend: uint64, sym: nat, word: nat)
    returns (c1: Cursor, c2: Cursor, c3: Cursor, c4: Cursor, c5: Cursor, c6: Cursor)
    requires n.Active() && Sound(n, segs) && CString(img, sym) == Ok(n.sym)
    ensures forall p :: Apply(img, SetOrdinal(n.dylib.value), p, c, segs, word) == Ok((c1, []))
    ensures forall p :: Apply(img, SetType(n.ty), p, c1, segs, word) == Ok((c2, []))
    ensures forall p :: Apply(img, SetAddend(addend), p, c2, segs, word) == Ok((c3, []))
    ensures forall p :: Apply(img, SetSegOff(n.target.value.segId, n.target.value.VmOff()), p, c3, segs, word) == Ok((c4, []))
    ensures forall p :: Apply(img, SetSymbol(n.flags, sym), p, c4, segs, word) == Ok((c5, []))
    ensures forall p :: Apply(img, DoBind, p, c5, segs, word) == Ok((c6, Recorded(n, n.ty, addend, c.index)))
    ensures c6.index == c.index
  {
    hide CString;
    OffsetReadsBack(n.target.value, segs);
    c1 := c.(dylib := n.dylib.value);
    c2 := c1.(ty := n.ty);
    c3 := c2.(addend := addend);
    c4 := c3.(vmaddr := n.target.value.loc.vmaddr);
    c5 := c4.(flags := n.flags, sym := Some(sym));
    c6 := Moved(c5, word);
  }

  /** One emitted node of the non-lazy stream read back. */
  lemma {:induction false} PlainNodeReadsBack(
    n: Node, segs: seq<uint64>, img: bytes, begin: nat, it: nat, end: nat, c: Cursor, word: nat) returns (c': Cursor)
    requires n.Active() && Sound(n, segs) && Int64(n.addend) && Has(img, it, n.Bytes(false))
    requires begin <= it && it + |n.Bytes(false)| <= end < TWO_64
    ensures c'.index == c.index && n.dylib.Some? && n.dylib.value < 16
    ensures Interp(img, begin, it, end, false, c, segs, word) ==
            Prefixed(Recorded(n, n.ty, Value(Sleb(n.addend)) % TWO_64, c.index),
                     Interp(img, begin, it + |n.Bytes(false)|, end, false, c', segs, word))
  {
    hide ReadOp, Apply, Interp, Has, CString, Node.SegOff, Node.Symbol, Node.Bytes, Sound, Recorded, Prefixed, OrByte,
         Sleb, Value;
    SoundIs(n, segs);
    PlainOps(n, segs, img, it, end);
    var addend := Value(Sleb(n.addend)) % TWO_64;
    var i1 := it + 3 + |Sleb(n.addend)|;
    var i2 := i1 + |n.SegOff()|;
    var i3 := i2 + |n.Symbol()|;
    var c1, c2, c3, c4, c5, c6 := PlainEffects(n, segs, img, c, addend, i2 + 1, word);
    c' := c6;
    SegOffLength(n);
    InterpStep(img, begin, it, end, false, c, segs, word, SetOrdinal(n.dylib.value), it + 1, c1, []);
    InterpStep(img, begin, it + 1, end, false, c1, segs, word, SetType(n.ty), it + 2, c2, []);
    InterpStep(img, begin, it + 2, end, false, c2, segs, word, SetAddend(addend), i1, c3, []);
    InterpStep(img, begin, i1, end, false, c3, segs, word,
               SetSegOff(n.target.value.segId, n.target.value.VmOff()), i2, c4, []);
    InterpStep(img, begin, i2, end, false, c4, segs, word, SetSymbol(n.flags, i2 + 1), i3, c5, []);
    InterpStep(img, begin, i3, end, false, c5, segs, word, DoBind, i3 + 1, c6,
               Recorded(n, n.ty, addend, c.index));
  }

  /** What the list makes the parser record, with each addend as the unsigned decoder sees it. */
  function PlainBindees(nodes: seq<Node>, segs: seq<uint64>): seq<Bindee>
    requires AllSound(nodes, segs)
  {
    if nodes == [] then []
    else
      (if nodes[0].Active()
       then Recorded(nodes[0], nodes[0].ty, Value(Sleb(nodes[0].addend)) % TWO_64, 0) else [])
      + PlainBindees(nodes[1..], segs)
  }

  /**
   Non-lazy round trip: re-parsing the emitted stream records the active nodes at nonzero addresses in order with
   index 0; each addend is kept exactly when all its seven-bit groups agree.
   */
  lemma {:induction false} PlainStreamReads(
    nodes: seq<Node>, segs: seq<uint64>, img: bytes, begin: nat, it: nat, end: nat, c: Cursor, word: nat)
    requires AllSound(nodes, segs) && AllLinked(nodes) && begin <= it && it + |Stream(nodes, false)| <= end < TWO_64
    requires forall i :: 0 <= i < |nodes| ==> Int64(nodes[i].addend)
    requires Has(img, it, Stream(nodes, false)) && Zeroed(img, it + |Stream(nodes, false)|, end)
    requires c.index == 0
    ensures Interp(img, begin, it, end, false, c, segs, word) == Ok(PlainBindees(nodes, segs))
    decreases |nodes|
  {
    hide Interp, Has, Node.Bytes, Sound, Zeroed, Recorded, Node.Size, Int64, Sleb, Value;
    if nodes == [] {
      InterpZeros(img, begin, it, end, false, c, segs, word);
    } else {
      var rest := nodes[1..];
      if nodes[0].Active() {
        var bs := nodes[0].Bytes(false);
        HasParts(img, it, bs, Stream(rest, false));
        var c' := PlainNodeReadsBack(nodes[0], segs, img, begin, it, end, c, word);
        PlainStreamReads(rest, segs, img, begin, it + |bs|, end, c', word);
      } else {
        assert Stream(nodes, false) == [] + Stream(rest, false) == Stream(rest, false);
        PlainStreamReads(rest, segs, img, begin, it, end, c, word);
        var after := PlainBindees(rest, segs);
        assert [] + after == after;
      }
    }
  }

  lemma {:induction false} PaddedIs(img: bytes, from: nat, to: nat)
    requires PaddedTo(img, from, to)
    ensures from <= to && Zeroed(img, from, to)
  {
  }

  /** The whole stream as written, DONE and padding included. */
  lemma {:induction false} PlainRoundTrip(nodes: seq<Node>, segs: seq<uint64>, img: bytes, off: nat, word: nat)
    requires AllSound(nodes, segs) && AllLinked(nodes) && word > 0
    requires forall i :: 0 <= i < |nodes| ==> Int64(nodes[i].addend)
    requires Has(img, off, Stream(nodes, false))
    requires var end := off + Rebase.Reserved(SizeSum(nodes, false), word);
      end < TWO_64 && PaddedTo(img, off + |Stream(nodes, false)|, end)
    ensures Interp(img, off, off, off + Rebase.Reserved(SizeSum(nodes, false), word), false, START, segs, word) ==
            Ok(PlainBindees(nodes, segs))
  {
    hide *;
    var end := off + Rebase.Reserved(SizeSum(nodes, false), word);
    StartIs();
    PaddedIs(img, off + |Stream(nodes, false)|, end);
    PlainStreamReads(nodes, segs, img, off, off, end, START, word);
  }
}
