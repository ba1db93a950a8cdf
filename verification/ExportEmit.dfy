/** Writing an export trie (src/core/export_info.cc) and reading it back. */
module ExportEmit {
  import opened Wrappers
  import opened Images
  import opened Leb128
  import opened Layout
  import opened Tries
  import opened ExportTrie

  /** A character, its terminator and the longest offset. */
  const EDGE_SIZE: nat := 12

  // ----- sizes -----

  function InfoSize(value: Option<Export>): nat
  {
    if value.None? then 0 else |Info(value.value)|
  }

  /** The bytes in front of the edge table: size of the information, the information, number of edges. */
  function Header(t: Node): bytes
  {
    Uleb(InfoSize(t.value)) + (if t.value.None? then [] else Info(t.value.value)) + [|t.kids| % 256]
  }

  /** The bytes from the start of a node to the end of its last descendant. */
  function Span(t: Node): (n: nat)
    ensures n >= |Header(t)|
    decreases t, 1, 0
  {
    |Header(t)| + EDGE_SIZE * |t.kids| + KidsSpan(t, |t.kids|)
  }

  function KidsSpan(t: Node, n: nat): nat
    requires n <= |t.kids|
    decreases t, 0, n
  {
    if n == 0 then 0 else KidsSpan(t, n - 1) + Span(t.kids[n - 1].sub)
  }

  /** NodeSize: the prediction. */
  function NodeSize(t: Node): nat
    decreases t, 1, 0
  {
    var info := if t.value.None? then 0 else InfoBound(t.value.value);
    info + |Uleb(info)| + 1 + KidsSize(t, |t.kids|)
  }

  function KidsSize(t: Node, n: nat): nat
    requires n <= |t.kids|
    decreases t, 0, n
  {
    if n == 0 then 0 else KidsSize(t, n - 1) + 2 + MAX_ULEB + NodeSize(t.kids[n - 1].sub)
  }

  /** The bytes used never exceed the prediction. */
  lemma {:induction false} SpanWithinSize(t: Node)
    ensures Span(t) <= NodeSize(t)
    decreases t, 1, 0
  {
    hide Uleb;
    KidsWithinSize(t, |t.kids|);
    if t.value.Some? {
      InfoWithinBound(t.value.value);
      UlebLengthMonotone(|Info(t.value.value)|, InfoBound(t.value.value));
    }
  }

  /** The bounds are those of the longest 64-bit number, and of a character, its terminator and such a number. */
  lemma {:induction false} BoundsAre()
    ensures MAX_ULEB == |Uleb(SIZE_MAX)| && EDGE_SIZE == 2 + |Uleb(SIZE_MAX)|
  {
    UlebMaxLength();
  }

  lemma {:induction false} KidsSizes(t: Node, n: nat)
    requires n <= |t.kids|
    ensures n == 0 ==> KidsSpan(t, n) == KidsSize(t, n) == 0
    ensures n > 0 ==> KidsSpan(t, n) == KidsSpan(t, n - 1) + Span(t.kids[n - 1].sub)
    ensures n > 0 ==> KidsSize(t, n) == KidsSize(t, n - 1) + EDGE_SIZE + NodeSize(t.kids[n - 1].sub)
  {
    hide Span, NodeSize;
  }

  lemma {:induction false} KidsWithinSize(t: Node, n: nat)
    requires n <= |t.kids|
    ensures EDGE_SIZE * n + KidsSpan(t, n) <= KidsSize(t, n)
    decreases t, 0, n
  {
    hide *;
    KidsSizes(t, n);
    if n == 0 {
    } else {
      KidsWithinSize(t, n - 1);
      SpanWithinSize(t.kids[n - 1].sub);
    }
  }

  // ----- emission -----

  /** The image after the loop that writes the information, with the predicted size first and the actual one last. */
  function EmitInfo(value: Option<Export>, data: bytes, off: nat): bytes
  {
    match value
    case None => Splice(data, off, Uleb(0))
    case Some(e) =>
      var first := Splice(data, off, Uleb(InfoBound(e)) + Info(e));
      if InfoBound(e) == |Info(e)| then first else Splice(first, off, Uleb(|Info(e)|) + Info(e))
  }

  /** Where the number of edges goes. */
  function CountAt(t: Node, off: nat): nat
  {
    off + |Uleb(InfoSize(t.value))| + InfoSize(t.value)
  }

  function Entry(key: byte, diff: uint64): (s: bytes)
    ensures 2 < |s| <= EDGE_SIZE
  {
    UlebLengthMonotone(diff, diff);
    [key] + [0] + Uleb(diff)
  }

  /** The entry for child `i`, laid out at `past`. */
  function EntryOf(t: Node, i: nat, past: nat, start: nat): (s: bytes)
    requires i < |t.kids|
    ensures 2 < |s| <= EDGE_SIZE
  {
    Entry(t.kids[i].key, (past - start) % TWO_64)
  }

  /** EmitNode: the image after it, and the offset past everything it laid out. */
  function EmitNode(t: Node, data: bytes, off: nat, start: nat): (bytes, nat)
    decreases t, 1, 0
  {
    var at := CountAt(t, off) + 1;
    var counted := Splice(EmitInfo(t.value, data, off), at - 1, [|t.kids| % 256]);
    EmitKids(t, 0, counted, at, at + EDGE_SIZE * (|t.kids| % 256), start)
  }

  function EmitKids(t: Node, i: nat, data: bytes, at: nat, past: nat, start: nat): (bytes, nat)
    requires i <= |t.kids|
    decreases t, 0, |t.kids| - i
  {
    if i == |t.kids| then (data, past)
    else
      var entry := EntryOf(t, i, past, start);
      var (d, past') := EmitNode(t.kids[i].sub, Splice(data, at, entry), past, start);
      EmitKids(t, i + 1, d, at + |entry|, past', start)
  }

  method WriteDerived(e: Export, img: Image, off: nat) returns (len: nat)
    modifies img
    ensures img.data == Splice(old(img.data), off, Derived(e)) && len == |Derived(e)|
  {
    hide Splice, Uleb;
    ghost var before := img.data;
    match e {
      case Regular(_, offset) =>
        len := Leb128Encode(img, off, offset);
      case Reexport(_, ordinal, name) =>
        var n := Leb128Encode(img, off, ordinal);
        img.Copy(off + n, name + [0]);
        SpliceConcat(before, off, Uleb(ordinal), name + [0]);
        len := n + |name| + 1;
      case Resolver(_, stub, resolver) =>
        var n := Leb128Encode(img, off, stub);
        var m := Leb128Encode(img, off + n, resolver);
        SpliceConcat(before, off, Uleb(stub), Uleb(resolver));
        len := n + m;
    }
  }

  /** One symbol's `Emit`: the bytes written. */
  method WriteInfo(e: Export, img: Image, off: nat) returns (len: nat)
    modifies img
    ensures img.data == Splice(old(img.data), off, Info(e)) && len == |Info(e)|
  {
    hide Splice, Uleb, Derived;
    ghost var before := img.data;
    var n := Leb128Encode(img, off, e.flags);
    var m := WriteDerived(e, img, off + n);
    SpliceConcat(before, off, Uleb(e.flags), Derived(e));
    len := n + m;
  }

  /** Writes size and information until the size written is the actual one: at most two passes. */
  method WriteSizedInfo(value: Option<Export>, img: Image, off: nat) returns (end: nat, ghost passes: nat)
    requires value.Some? ==> InfoBound(value.value) < TWO_64
    modifies img
    ensures img.data == EmitInfo(value, old(img.data), off)
    ensures end == off + |Uleb(InfoSize(value))| + InfoSize(value) && passes <= 2
  {
    hide Splice, Uleb, Info;
    ghost var before := img.data;
    var infoSize := if value.None? then 0 else InfoBound(value.value);
    if value.Some? {
      InfoWithinBound(value.value);
    }
    passes := 0;
    while true
      invariant passes == 0 ==> img.data == before && infoSize == if value.None? then 0 else InfoBound(value.value)
      invariant passes == 1 ==> value.Some? && infoSize == |Info(value.value)| != InfoBound(value.value)
      invariant passes == 1 ==> img.data == Splice(before, off, Uleb(InfoBound(value.value)) + Info(value.value))
      invariant passes <= 1 && infoSize < TWO_64
      decreases 2 - passes
    {
      ghost var here := img.data;
      var len := Leb128Encode(img, off, infoSize);
      var actual: nat := 0;
      if value.Some? {
        actual := WriteInfo(value.value, img, off + len);
        SpliceConcat(here, off, Uleb(infoSize), Info(value.value));
      }
      passes := passes + 1;
      if actual == infoSize {
        end := off + len + actual;
        return;
      }
      infoSize := actual;
    }
  }

  /** At most 255 children, none of them under the terminator. */
  ghost predicate Fits(t: Node)
    decreases t
  {
    && |t.kids| < 256 && DistinctKeys(t.kids)
    && forall i :: 0 <= i < |t.kids| ==> t.kids[i].key != 0 && Fits(t.kids[i].sub)
  }

  lemma {:induction false} EmitNodeEnd(t: Node, data: bytes, off: nat, start: nat)
    requires Fits(t)
    ensures EmitNode(t, data, off, start).1 == off + Span(t)
    decreases t, 1, 0
  {
    hide EmitInfo, Splice, Uleb;
    var at := CountAt(t, off) + 1;
    var counted := Splice(EmitInfo(t.value, data, off), at - 1, [|t.kids| % 256]);
    HeaderLength(t);
    EmitKidsEnd(t, 0, counted, at, at + EDGE_SIZE * |t.kids|, start);
  }

  lemma {:induction false} HeaderLength(t: Node)
    ensures |Header(t)| == |Uleb(InfoSize(t.value))| + InfoSize(t.value) + 1
  {
  }

  lemma {:induction false} FitsBelow(t: Node, i: nat)
    requires Fits(t) && i < |t.kids|
    ensures Fits(t.kids[i].sub) && |t.kids| < 256
  {
  }

  lemma {:induction false} UnfoldKids(
    t: Node, i: nat, data: bytes, at: nat, past: nat, start: nat, entry: bytes, d: bytes, past': nat)
    requires i < |t.kids| && entry == EntryOf(t, i, past, start)
    requires EmitNode(t.kids[i].sub, Splice(data, at, entry), past, start) == (d, past')
    ensures EmitKids(t, i, data, at, past, start) == EmitKids(t, i + 1, d, at + |entry|, past', start)
  {
    hide EmitNode, Splice, EntryOf;
  }

  lemma {:induction false} KidsSpanNext(t: Node, i: nat)
    requires i < |t.kids|
    ensures KidsSpan(t, i + 1) == KidsSpan(t, i) + Span(t.kids[i].sub)
  {
    hide Span;
  }

  lemma {:induction false} EmitKidsEnd(t: Node, i: nat, data: bytes, at: nat, past: nat, start: nat)
    requires Fits(t) && i <= |t.kids|
    ensures EmitKids(t, i, data, at, past, start).1 + KidsSpan(t, i) == past + KidsSpan(t, |t.kids|)
    decreases t, 0, |t.kids| - i
  {
    hide *;
    if i < |t.kids| {
      FitsBelow(t, i);
      KidsSpanNext(t, i);
      var entry := EntryOf(t, i, past, start);
      EmitNodeEnd(t.kids[i].sub, Splice(data, at, entry), past, start);
      var d := EmitNode(t.kids[i].sub, Splice(data, at, entry), past, start).0;
      UnfoldKids(t, i, data, at, past, start, entry, d, past + Span(t.kids[i].sub));
      EmitKidsEnd(t, i + 1, d, at + |entry|, past + Span(t.kids[i].sub), start);
    } else {
      NoMoreKids(t, data, at, past, start);
    }
  }

  lemma {:induction false} NoMoreKids(t: Node, data: bytes, at: nat, past: nat, start: nat)
    ensures EmitKids(t, |t.kids|, data, at, past, start) == (data, past)
  {
  }

  lemma {:induction false} KidsSizeStep(t: Node, i: nat, n: nat)
    requires i < n <= |t.kids|
    ensures KidsSize(t, i) + (2 + MAX_ULEB) * (n - i) + NodeSize(t.kids[i].sub) <= KidsSize(t, n)
    decreases n
  {
    hide NodeSize;
    if i < n - 1 {
      KidsSizeStep(t, i, n - 1);
    }
  }

  /** A child with all it may touch lies within the prediction for its parent. */
  lemma {:induction false} KidRoom(t: Node, i: nat)
    requires i < |t.kids|
    ensures |Header(t)| + EDGE_SIZE * |t.kids| + KidsSpan(t, i) + NodeSize(t.kids[i].sub) <= NodeSize(t)
  {
    KidsSizeStep(t, i, |t.kids|);
    KidsWithinSize(t, i);
    HeaderWithinSize(t);
  }

  lemma {:induction false} HeaderWithinSize(t: Node)
    ensures |Header(t)| + KidsSize(t, |t.kids|) <= NodeSize(t)
    ensures t.value.Some? ==>
      |Uleb(InfoBound(t.value.value))| + |Info(t.value.value)| + 1 + KidsSize(t, |t.kids|) <= NodeSize(t)
    ensures t.value.Some? ==> InfoBound(t.value.value) <= NodeSize(t)
  {
    hide Uleb, KidsSize, Info, InfoBound;
    if t.value.Some? {
      InfoWithinBound(t.value.value);
      UlebLengthMonotone(|Info(t.value.value)|, InfoBound(t.value.value));
    }
  }

  /** Writes one entry of the edge table. */
  method WriteEntry(key: byte, diff: uint64, img: Image, at: nat) returns (len: nat)
    modifies img
    ensures img.data == Splice(old(img.data), at, Entry(key, diff)) && len == |Entry(key, diff)|
  {
    hide Splice, Uleb;
    ghost var here := img.data;
    img.Put(at, key);
    img.Put(at + 1, 0);
    SpliceConcat(here, at, [key], [0]);
    var n := Leb128Encode(img, at + 2, diff);
    SpliceConcat(here, at, [key] + [0], Uleb(diff));
    len := 2 + n;
  }

  method Write(t: Node, img: Image, off: nat, start: nat) returns (end: nat)
    requires start <= off && off + NodeSize(t) < TWO_64 && Fits(t)
    modifies img
    ensures EmitNode(t, old(img.data), off, start) == (img.data, end)
    decreases t, 1
  {
    hide Splice, Uleb, EmitInfo, Info, InfoBound, EmitKids, NodeSize;
    HeaderWithinSize(t);
    HeaderLength(t);
    var at, _ := WriteSizedInfo(t.value, img, off);
    img.Put(at, |t.kids| % 256);
    end := WriteKids(t, img, off, at + 1, at + 1 + EDGE_SIZE * (|t.kids| % 256), start);
  }

  method WriteKids(t: Node, img: Image, off: nat, table: nat, past0: nat, start: nat) returns (end: nat)
    requires start <= off && off + NodeSize(t) < TWO_64 && Fits(t)
    requires past0 == off + |Header(t)| + EDGE_SIZE * |t.kids|
    modifies img
    ensures EmitKids(t, 0, old(img.data), table, past0, start) == (img.data, end)
    decreases t, 0
  {
    hide Splice, Entry, Header, NodeSize, Span, EmitNode;
    ghost var whole := EmitKids(t, 0, img.data, table, past0, start);
    var at, past, i: nat := table, past0, 0;
    while i < |t.kids|
      invariant i <= |t.kids| && past == past0 + KidsSpan(t, i)
      invariant whole == EmitKids(t, i, img.data, at, past, start)
    {
      KidRoom(t, i);
      ghost var here := img.data;
      assert (past - start) % TWO_64 == past - start;
      var len := WriteEntry(t.kids[i].key, past - start, img, at);
      EmitNodeEnd(t.kids[i].sub, img.data, past, start);
      past := Write(t.kids[i].sub, img, past, start);
      at := at + len;
      i := i + 1;
    }
    end := past;
  }
}
