/** What EmitNode leaves in the image, that nothing it writes later disturbs it, and that ParseNode reads it back. */
module ExportRoundTrip {
  import opened Wrappers
  import opened Images
  import opened Leb128
  import opened Layout
  import opened Tries
  import opened Bind
  import opened ExportTrie
  import opened ExportEmit

  /** The image holds `t` at `off` as EmitNode lays it out. */
  ghost predicate TrieAt(img: bytes, off: nat, start: nat, t: Node)
    decreases t, 1, 0
  {
    && Has(img, off, Header(t))
    && KidsAt(img, off + |Header(t)|, off + |Header(t)| + EDGE_SIZE * |t.kids|, start, t, 0)
  }

  ghost predicate KidsAt(img: bytes, at: nat, past: nat, start: nat, t: Node, i: nat)
    requires i <= |t.kids|
    decreases t, 0, |t.kids| - i
  {
    i < |t.kids| ==>
      var entry := EntryOf(t, i, past, start);
      && Has(img, at, entry)
      && TrieAt(img, past, start, t.kids[i].sub)
      && KidsAt(img, at + |entry|, past + Span(t.kids[i].sub), start, t, i + 1)
  }

  // ----- frames -----

  /** `img'` is at least as long and holds the same bytes in `[lo, hi)`. */
  ghost predicate Agree(img: bytes, img': bytes, lo: nat, hi: nat)
  {
    |img| <= |img'| && forall k :: lo <= k < hi && k < |img| ==> img[k] == img'[k]
  }

  lemma {:induction false} HasKept(img: bytes, img': bytes, off: nat, s: bytes, lo: nat, hi: nat)
    requires Has(img, off, s) && Agree(img, img', lo, hi) && lo <= off && off + |s| <= hi
    ensures Has(img', off, s)
  {
    forall k | 0 <= k < |s| ensures img'[off + k] == s[k] {
      assert img[off..off + |s|][k] == s[k];
    }
  }

  lemma {:induction false} TrieKept(img: bytes, img': bytes, off: nat, start: nat, t: Node, lo: nat, hi: nat)
    requires TrieAt(img, off, start, t) && Agree(img, img', lo, hi) && lo <= off && off + Span(t) <= hi
    ensures TrieAt(img', off, start, t)
    decreases t, 1, 0
  {
    hide Has, Agree, Header;
    HasKept(img, img', off, Header(t), lo, hi);
    KidsKept(img, img', off + |Header(t)|, off + |Header(t)| + EDGE_SIZE * |t.kids|, start, t, 0, lo, hi);
  }

  lemma {:induction false} KidsKept(
    img: bytes, img': bytes, at: nat, past: nat, start: nat, t: Node, i: nat, lo: nat, hi: nat)
    requires i <= |t.kids| && KidsAt(img, at, past, start, t, i) && Agree(img, img', lo, hi)
    requires lo <= at && at + EDGE_SIZE * (|t.kids| - i) <= hi
    requires lo <= past && past + KidsSpan(t, |t.kids|) <= hi + KidsSpan(t, i)
    ensures KidsAt(img', at, past, start, t, i)
    decreases t, 0, |t.kids| - i
  {
    hide Has, Agree, Header, EntryOf, Span, TrieAt;
    if i < |t.kids| {
      var entry := EntryOf(t, i, past, start);
      KidsSpanStep(t, i);
      HasKept(img, img', at, entry, lo, hi);
      TrieKept(img, img', past, start, t.kids[i].sub, lo, hi);
      KidsKept(img, img', at + |entry|, past + Span(t.kids[i].sub), start, t, i + 1, lo, hi);
    }
  }

  lemma {:induction false} KidsSpanStep(t: Node, i: nat)
    requires i < |t.kids|
    ensures KidsSpan(t, i + 1) == KidsSpan(t, i) + Span(t.kids[i].sub) <= KidsSpan(t, |t.kids|)
  {
    hide *;
    KidsSpanNext(t, i);
    KidsSpanMonotone(t, i + 1, |t.kids|);
  }

  lemma {:induction false} KidsSpanMonotone(t: Node, i: nat, n: nat)
    requires i <= n <= |t.kids|
    ensures KidsSpan(t, i) <= KidsSpan(t, n)
    decreases n
  {
    hide *;
    if i < n {
      KidsSpanNext(t, n - 1);
      KidsSpanMonotone(t, i, n - 1);
    }
  }

  /** Only bytes of `[a, b)` and `[c, d)` may differ, and the image grows no further than `d`. */
  ghost predicate Touches(img: bytes, img': bytes, a: nat, b: nat, c: nat, d: nat)
  {
    && |img| <= |img'| && (|img'| <= |img| || |img'| <= d)
    && forall k :: 0 <= k < |img| && !(a <= k < b) && !(c <= k < d) ==> img'[k] == img[k]
  }

  lemma {:induction false} SpliceTouches(img: bytes, off: nat, s: bytes, a: nat, b: nat, c: nat, d: nat)
    requires (a <= off && off + |s| <= b) || (c <= off && off + |s| <= d)
    requires b <= d
    ensures Touches(img, Splice(img, off, s), a, b, c, d)
  {
  }

  lemma {:induction false} TouchesTwice(
    x: bytes, y: bytes, z: bytes, a: nat, b: nat, c: nat, d: nat, a': nat, b': nat, c': nat, d': nat)
    requires Touches(x, y, a, b, c, d) && Touches(y, z, a', b', c', d')
    requires a <= a' && b' <= b && c <= c' && d' <= d
    ensures Touches(x, z, a, b, c, d)
  {
  }

  lemma {:induction false} TouchesWider(x: bytes, y: bytes, a: nat, b: nat, c: nat, d: nat, a': nat, d': nat)
    requires Touches(x, y, a, b, c, d) && a' <= a && a' <= c && b <= d' && d <= d'
    ensures Touches(x, y, a', d', a', d')
  {
  }

  lemma {:induction false} TouchesAgrees(x: bytes, y: bytes, a: nat, b: nat, c: nat, d: nat, lo: nat, hi: nat)
    requires Touches(x, y, a, b, c, d) && (hi <= a || b <= lo) && (hi <= c || d <= lo)
    ensures Agree(x, y, lo, hi)
  {
  }

  // ----- the header -----

  lemma {:induction false} BlockEmitted(data: bytes, off: nat, block: bytes, count: bytes, hi: nat)
    requires off + |block| + |count| <= hi
    ensures
      var d := Splice(Splice(data, off, block), off + |block|, count);
      Has(d, off, block + count) && Touches(data, d, off, hi, off, hi)
  {
    hide *;
    SpliceConcat(data, off, block, count);
    SpliceHas(data, off, block + count);
    SpliceTouches(data, off, block + count, off, hi, off, hi);
  }

  lemma {:induction false} BlockRewritten(data: bytes, off: nat, draft: bytes, block: bytes, count: bytes, hi: nat)
    requires off + |draft| <= hi && off + |block| + |count| <= hi
    ensures
      var d := Splice(Splice(Splice(data, off, draft), off, block), off + |block|, count);
      Has(d, off, block + count) && Touches(data, d, off, hi, off, hi)
  {
    hide *;
    var first := Splice(data, off, draft);
    BlockEmitted(first, off, block, count, hi);
    SpliceTouches(data, off, draft, off, hi, off, hi);
    TouchesTwice(data, first, Splice(Splice(first, off, block), off + |block|, count), off, hi, off, hi, off, hi, off, hi);
  }

  /** The size and information as they end up. */
  function Block(t: Node): bytes
  {
    Uleb(InfoSize(t.value)) + (if t.value.None? then [] else Info(t.value.value))
  }

  /** The size and information as first written. */
  function Draft(t: Node): bytes
  {
    if t.value.None? then Uleb(0) else Uleb(InfoBound(t.value.value)) + Info(t.value.value)
  }

  lemma {:induction false} BlockFacts(t: Node, off: nat)
    requires |t.kids| < 256
    ensures Header(t) == Block(t) + [|t.kids| % 256] && CountAt(t, off) == off + |Block(t)|
    ensures |Header(t)| == |Block(t)| + 1 && |Header(t)| + KidsSize(t, |t.kids|) <= NodeSize(t)
    ensures |Draft(t)| + 1 + KidsSize(t, |t.kids|) <= NodeSize(t)
  {
    hide Uleb, Info, InfoBound, NodeSize, KidsSize;
    HeaderWithinSize(t);
  }

  lemma {:induction false} EmitInfoForms(t: Node, data: bytes, off: nat)
    ensures EmitInfo(t.value, data, off) == Splice(data, off, Block(t)) ||
            EmitInfo(t.value, data, off) == Splice(Splice(data, off, Draft(t)), off, Block(t))
  {
    hide Uleb, Info, InfoBound, Splice;
    if t.value.None? {
      assert Uleb(0) + [] == Uleb(0);
    }
  }

  lemma {:induction false} HeaderEmitted(t: Node, data: bytes, off: nat, hi: nat)
    requires |t.kids| < 256 && off + NodeSize(t) <= hi + KidsSize(t, |t.kids|)
    requires hi + KidsSize(t, |t.kids|) <= off + NodeSize(t)
    ensures
      var d := Splice(EmitInfo(t.value, data, off), CountAt(t, off), [|t.kids| % 256]);
      Has(d, off, Header(t)) && Touches(data, d, off, hi, off, hi)
  {
    hide *;
    BlockFacts(t, off);
    EmitInfoForms(t, data, off);
    BlockEmitted(data, off, Block(t), [|t.kids| % 256], hi);
    BlockRewritten(data, off, Draft(t), Block(t), [|t.kids| % 256], hi);
  }

  // ----- emission -----

  lemma {:induction false} EmitNodeIs(t: Node, data: bytes, off: nat, start: nat)
    requires |t.kids| < 256
    ensures
      var counted := Splice(EmitInfo(t.value, data, off), CountAt(t, off), [|t.kids| % 256]);
      var table := off + |Header(t)|;
      EmitNode(t, data, off, start) == EmitKids(t, 0, counted, table, table + EDGE_SIZE * |t.kids|, start)
  {
    hide EmitInfo, Splice, Uleb, EmitKids;
    HeaderLength(t);
  }

  lemma {:induction false} TouchesSecond(
    x: bytes, y: bytes, a: nat, b: nat, c: nat, d: nat, c': nat, d': nat)
    requires Touches(x, y, c', d', c', d') && c <= c' && d' <= d
    ensures Touches(x, y, a, b, c, d)
  {
  }

  /** The header is in place, then the children: nothing of the header is lost. */
  lemma {:induction false} HeaderStays(
    t: Node, data: bytes, counted: bytes, d: bytes, off: nat, mid: nat, top: nat, hi: nat)
    requires Has(counted, off, Header(t)) && off + |Header(t)| <= top <= hi && mid <= hi
    requires Touches(data, counted, off, mid, off, mid)
    requires Touches(counted, d, off + |Header(t)|, top, top, hi)
    ensures Has(d, off, Header(t)) && off + |Header(t)| <= |d| && Touches(data, d, off, hi, off, hi)
  {
    hide *;
    var table := off + |Header(t)|;
    TouchesAgrees(counted, d, table, top, top, hi, off, table);
    HasKept(counted, d, off, Header(t), off, table);
    HasLength(d, off, Header(t));
    TouchesWider(data, counted, off, mid, off, mid, off, hi);
    TouchesWider(counted, d, table, top, top, hi, off, hi);
    TouchesTwice(data, counted, d, off, hi, off, hi, off, hi, off, hi);
  }

  /**
   EmitNode leaves the whole trie at its place, ends where `Span` says, and touches nothing outside the space its
   size predicts.
   */
  lemma {:induction false} NodeEmitted(t: Node, data: bytes, off: nat, start: nat) returns (d: bytes)
    requires Fits(t)
    ensures EmitNode(t, data, off, start) == (d, off + Span(t)) && off + Span(t) <= |d|
    ensures TrieAt(d, off, start, t)
    ensures Touches(data, d, off, off + NodeSize(t), off, off + NodeSize(t))
    decreases t, 1, 0
  {
    hide *;
    var n, hi := |t.kids|, off + NodeSize(t);
    var counted := Splice(EmitInfo(t.value, data, off), CountAt(t, off), [n % 256]);
    var table := off + |Header(t)|;
    var top := table + EDGE_SIZE * n;
    NodeFacts(t);
    BlockFacts(t, off);
    SizeHolds(t);
    HeaderEmitted(t, data, off, hi - KidsSize(t, n));
    EmitNodeIs(t, data, off, start);
    EmitNodeEnd(t, data, off, start);
    var end;
    d, end := KidsEmitted(t, 0, counted, table, top, start, top, hi);
    HeaderStays(t, data, counted, d, off, hi - KidsSize(t, n), top, hi);
    SpanOfLeaf(t);
    TrieIs(d, off, start, t);
  }

  lemma {:induction false} NodeFacts(t: Node)
    requires Fits(t)
    ensures |t.kids| < 256 && KidsSize(t, 0) == 0
  {
  }

  lemma {:induction false} TrieIs(img: bytes, off: nat, start: nat, t: Node)
    requires Has(img, off, Header(t))
    requires KidsAt(img, off + |Header(t)|, off + |Header(t)| + EDGE_SIZE * |t.kids|, start, t, 0)
    ensures TrieAt(img, off, start, t)
  {
    hide Has, Header, KidsAt;
  }

  lemma {:induction false} SpanOfLeaf(t: Node)
    ensures t.kids == [] ==> Span(t) == |Header(t)|
  {
  }

  lemma {:induction false} SizeHolds(t: Node)
    ensures |Header(t)| + EDGE_SIZE * |t.kids| <= NodeSize(t)
  {
    hide Uleb, Header, Span, NodeSize, KidsSize;
    HeaderWithinSize(t);
    KidsWithinSize(t, |t.kids|);
  }

  lemma {:induction false} HasLength(img: bytes, off: nat, s: bytes)
    requires Has(img, off, s)
    ensures off + |s| <= |img|
  {
  }

  lemma {:induction false} EmitKidsStep(
    t: Node, i: nat, data: bytes, at: nat, past: nat, start: nat, entry: bytes, d: bytes)
    requires Fits(t) && i < |t.kids| && entry == EntryOf(t, i, past, start)
    requires d == EmitNode(t.kids[i].sub, Splice(data, at, entry), past, start).0
    ensures EmitKids(t, i, data, at, past, start) ==
            EmitKids(t, i + 1, d, at + |entry|, past + Span(t.kids[i].sub), start)
  {
    hide *;
    FitsBelow(t, i);
    EmitNodeEnd(t.kids[i].sub, Splice(data, at, entry), past, start);
    UnfoldKids(t, i, data, at, past, start, entry, d, past + Span(t.kids[i].sub));
  }

  lemma {:induction false} KidsAtStep(img: bytes, at: nat, past: nat, start: nat, t: Node, i: nat, entry: bytes)
    requires i < |t.kids| && entry == EntryOf(t, i, past, start)
    requires Has(img, at, entry) && TrieAt(img, past, start, t.kids[i].sub)
    requires KidsAt(img, at + |entry|, past + Span(t.kids[i].sub), start, t, i + 1)
    ensures KidsAt(img, at, past, start, t, i)
  {
    hide Has, TrieAt, EntryOf, Span;
  }

  /** What is left to place after child `i` still fits below the limit. */
  lemma {:induction false} RoomLeft(t: Node, i: nat, past: nat, hi: nat)
    requires i < |t.kids|
    requires past + KidsSize(t, |t.kids|) <= hi + KidsSize(t, i) + EDGE_SIZE * (|t.kids| - i)
    ensures past + NodeSize(t.kids[i].sub) <= hi && Span(t.kids[i].sub) <= NodeSize(t.kids[i].sub)
    ensures past + Span(t.kids[i].sub) + KidsSize(t, |t.kids|) <=
            hi + KidsSize(t, i + 1) + EDGE_SIZE * (|t.kids| - (i + 1))
  {
    assert KidsSize(t, i + 1) == KidsSize(t, i) + 2 + MAX_ULEB + NodeSize(t.kids[i].sub);
    hide NodeSize, KidsSize, Span;
    KidsSizeStep(t, i, |t.kids|);
    SpanWithinSize(t.kids[i].sub);
  }

  /** An entry, the child after it, then the rest: the entry stays and only the two ranges are touched. */
  lemma {:induction false} EntryStays(
    x: bytes, d1: bytes, d2: bytes, d: bytes, at: nat, entry: bytes, past: nat, far: nat, past': nat, top: nat, hi: nat)
    requires d1 == Splice(x, at, entry) && at + |entry| <= top <= past <= past' <= hi && past <= far <= hi
    requires Touches(d1, d2, past, far, past, far) && Touches(d2, d, at + |entry|, top, past', hi)
    ensures Has(d, at, entry) && Touches(x, d, at, top, past, hi)
  {
    hide *;
    SpliceHas(x, at, entry);
    SpliceTouches(x, at, entry, at, top, past, hi);
    TouchesAgrees(d1, d2, past, far, past, far, at, at + |entry|);
    HasKept(d1, d2, at, entry, at, at + |entry|);
    TouchesAgrees(d2, d, at + |entry|, top, past', hi, at, at + |entry|);
    HasKept(d2, d, at, entry, at, at + |entry|);
    TouchesSecond(d1, d2, at, top, past, hi, past, far);
    TouchesTwice(x, d1, d2, at, top, past, hi, at, top, past, hi);
    TouchesTwice(x, d2, d, at, top, past, hi, at + |entry|, top, past', hi);
  }

  lemma {:induction false} NoKids(t: Node, data: bytes, at: nat, past: nat, start: nat, top: nat, hi: nat)
    ensures EmitKids(t, |t.kids|, data, at, past, start) == (data, past)
    ensures KidsAt(data, at, past, start, t, |t.kids|) && Touches(data, data, at, top, past, hi)
  {
  }

  /** `top` ends the edge table, `hi` is the limit of what may be touched. */
  lemma {:induction false} KidsEmitted(
    t: Node, i: nat, data: bytes, at: nat, past: nat, start: nat, top: nat, hi: nat) returns (d: bytes, end: nat)
    requires Fits(t) && i <= |t.kids|
    requires at + EDGE_SIZE * (|t.kids| - i) <= top <= past
    requires past + KidsSize(t, |t.kids|) <= hi + KidsSize(t, i) + EDGE_SIZE * (|t.kids| - i)
    ensures EmitKids(t, i, data, at, past, start) == (d, end)
    ensures i < |t.kids| ==> end <= |d|
    ensures KidsAt(d, at, past, start, t, i) && Touches(data, d, at, top, past, hi)
    decreases t, 0, |t.kids| - i
  {
    hide EmitInfo, Splice, Uleb, Header, NodeSize, KidsSize, Touches, Has, Agree, EmitNode, KidsAt, TrieAt,
         Entry, EntryOf, Span, KidsSpan, Fits, EmitKids;
    if i == |t.kids| {
      d, end := data, past;
      NoKids(t, data, at, past, start, top, hi);
    } else {
      var sub, entry := t.kids[i].sub, EntryOf(t, i, past, start);
      var at', past' := at + |entry|, past + Span(sub);
      var d1 := Splice(data, at, entry);
      FitsBelow(t, i);
      RoomLeft(t, i, past, hi);
      var d2 := NodeEmitted(sub, d1, past, start);
      d, end := KidsEmitted(t, i + 1, d2, at', past', start, top, hi);
      EmitKidsStep(t, i, data, at, past, start, entry, d2);
      EntryStays(data, d1, d2, d, at, entry, past, past + NodeSize(sub), past', top, hi);
      ChildStays(d2, d, at', top, past, past', hi, start, sub);
      KidsAtStep(d, at, past, start, t, i, entry);
      if i + 1 == |t.kids| {
        NoKids(t, d2, at', past', start, top, hi);
      }
    }
  }

  lemma {:induction false} ChildStays(
    d2: bytes, d: bytes, at: nat, top: nat, past: nat, past': nat, hi: nat, start: nat, sub: Node)
    requires Touches(d2, d, at, top, past', hi) && top <= past && past' == past + Span(sub)
    requires TrieAt(d2, past, start, sub)
    ensures TrieAt(d, past, start, sub) && |d2| <= |d|
  {
    hide *;
    TouchesGrows(d2, d, at, top, past', hi);
    TouchesAgrees(d2, d, at, top, past', hi, past, past');
    TrieKept(d2, d, past, start, sub, past, past');
  }

  lemma {:induction false} TouchesGrows(x: bytes, y: bytes, a: nat, b: nat, c: nat, d: nat)
    requires Touches(x, y, a, b, c, d)
    ensures |x| <= |y|
  {
  }

  // ----- reading back -----

  /** The radix tree with one character an edge. */
  function AsRadix(t: Node): Radix
    decreases t
  {
    Radix(t.value, seq(|t.kids|, i requires 0 <= i < |t.kids| => Edge([t.kids[i].key], AsRadix(t.kids[i].sub))))
  }

  /** Every symbol agrees with its flags, and no key holds a terminator. */
  ghost predicate Good<R>(t: Node, gs: seq<SegmentView<R>>)
    decreases t
  {
    && (t.value.Some? ==> Sound(t.value.value, gs)) && DistinctKeys(t.kids)
    && forall i :: 0 <= i < |t.kids| ==> t.kids[i].key != 0 && Good(t.kids[i].sub, gs)
  }

  lemma {:induction false} EntryReads(img: bytes, at: nat, key: byte, diff: uint64)
    requires Has(img, at, Entry(key, diff)) && key != 0
    ensures CString(img, at) == Ok([key])
    ensures ReadUleb(img, at + 2) == Ok((diff, at + |Entry(key, diff)|))
  {
    hide Has, ReadUleb, Uleb;
    HasParts(img, at, [key] + [0], Uleb(diff));
    HasParts(img, at, [key], [0]);
    HasByte(img, at, key);
    HasByte(img, at + 1, 0);
    ReadBack(img, at + 2, diff);
    assert CString(img, at + 1) == Ok([]);
    assert [key] + [] == [key];
  }

  lemma {:induction false} HeaderReads<R>(img: bytes, off: nat, t: Node, gs: seq<SegmentView<R>>)
    requires Has(img, off, Header(t)) && |t.kids| < 256 && InfoSize(t.value) < TWO_64
    requires t.value.Some? ==> Sound(t.value.value, gs)
    ensures
      var n, o1 := InfoSize(t.value), off + |Uleb(InfoSize(t.value))|;
      && ReadUleb(img, off) == Ok((n, o1)) && ParseValue(img, o1, n, gs) == Ok(t.value)
      && o1 + n < |img| && img[o1 + n] == |t.kids| && o1 + n + 1 == off + |Header(t)|
  {
    hide Has, ReadUleb, Uleb, Info, ParseInfo, Sound;
    var u := Uleb(InfoSize(t.value));
    var info := if t.value.None? then [] else Info(t.value.value);
    HasParts(img, off, u + info, [|t.kids| % 256]);
    HasParts(img, off, u, info);
    HasByte(img, off + |u| + |info|, |t.kids| % 256);
    ReadBack(img, off, InfoSize(t.value));
    if t.value.Some? {
      InfoWithinBound(t.value.value);
      InfoReadsBack(img, off + |u|, t.value.value, gs);
    }
  }

  lemma {:induction false} GoodBelow<R>(t: Node, gs: seq<SegmentView<R>>, i: nat)
    requires Good(t, gs) && i < |t.kids|
    ensures Good(t.kids[i].sub, gs) && t.kids[i].key != 0
  {
  }

  lemma {:induction false} RadixIs<R>(
    img: bytes, off: nat, start: nat, gs: seq<SegmentView<R>>, r: Radix, size: uint64, o1: nat)
    requires ReadUleb(img, off) == Ok((size, o1)) && ParseValue(img, o1, size, gs) == Ok(r.value)
    requires o1 + size < |img| && img[o1 + size] == |r.edges| && EdgesAt(img, o1 + size + 1, start, gs, r, 0)
    ensures RadixAt(img, off, start, gs, r)
  {
    hide ReadUleb, ParseValue, EdgesAt;
  }

  lemma {:induction false} EdgesIs<R>(
    img: bytes, off: nat, start: nat, gs: seq<SegmentView<R>>, r: Radix, i: nat, diff: uint64, next: nat)
    requires i < |r.edges| && CString(img, off) == Ok(r.edges[i].name)
    requires ReadUleb(img, off + |r.edges[i].name| + 1) == Ok((diff, next))
    requires RadixAt(img, Target(diff, start), start, gs, r.edges[i].sub) && EdgesAt(img, next, start, gs, r, i + 1)
    ensures EdgesAt(img, off, start, gs, r, i)
  {
    hide ReadUleb, CString, RadixAt, Target;
  }

  lemma {:induction false} TargetIs(past: nat, start: nat)
    requires start <= past < TWO_64
    ensures (past - start) % TWO_64 == past - start && Target(past - start, start) == past
  {
  }

  lemma {:induction false} AsRadixSize(t: Node)
    ensures AsRadix(t).value == t.value && |AsRadix(t).edges| == |t.kids|
  {
  }

  lemma {:induction false} AsRadixIs(t: Node)
    ensures AsRadix(t).value == t.value && |AsRadix(t).edges| == |t.kids|
    ensures forall i :: 0 <= i < |t.kids| ==> AsRadix(t).edges[i] == Edge([t.kids[i].key], AsRadix(t.kids[i].sub))
  {
  }

  lemma {:induction false} TrieReads<R>(img: bytes, off: nat, start: nat, gs: seq<SegmentView<R>>, t: Node)
    requires TrieAt(img, off, start, t) && Good(t, gs) && Fits(t) && start <= off && off + Span(t) < TWO_64
    ensures RadixAt(img, off, start, gs, AsRadix(t))
    decreases t, 1, 0
  {
    hide *;
    TrieOpens(img, off, start, t, gs);
    AsRadixSize(t);
    HeaderReads(img, off, t, gs);
    KidsRead(img, off + |Header(t)|, off + |Header(t)| + EDGE_SIZE * |t.kids|, start, gs, t, 0);
    RadixIs(img, off, start, gs, AsRadix(t), InfoSize(t.value), off + |Uleb(InfoSize(t.value))|);
  }

  lemma {:induction false} TrieOpens<R>(img: bytes, off: nat, start: nat, t: Node, gs: seq<SegmentView<R>>)
    requires TrieAt(img, off, start, t) && Good(t, gs) && Fits(t) && off + Span(t) < TWO_64
    ensures Has(img, off, Header(t)) && |t.kids| < 256 && InfoSize(t.value) < TWO_64 && KidsSpan(t, 0) == 0
    ensures t.value.Some? ==> Sound(t.value.value, gs)
    ensures KidsAt(img, off + |Header(t)|, off + |Header(t)| + EDGE_SIZE * |t.kids|, start, t, 0)
    ensures off <= off + |Header(t)| + EDGE_SIZE * |t.kids|
    ensures off + |Header(t)| + EDGE_SIZE * |t.kids| + KidsSpan(t, |t.kids|) < TWO_64
  {
    hide Has, KidsAt, Sound, InfoSize, Uleb;
    HeaderLength(t);
  }

  lemma {:induction false} KidsRead<R>(
    img: bytes, at: nat, past: nat, start: nat, gs: seq<SegmentView<R>>, t: Node, i: nat)
    requires i <= |t.kids| && KidsAt(img, at, past, start, t, i) && Good(t, gs) && Fits(t)
    requires start <= past && past + KidsSpan(t, |t.kids|) < TWO_64 + KidsSpan(t, i)
    ensures |AsRadix(t).edges| == |t.kids| && EdgesAt(img, at, start, gs, AsRadix(t), i)
    decreases t, 0, |t.kids| - i
  {
    hide *;
    AsRadixIs(t);
    if i == |t.kids| {
      NoEdgesLeft(img, at, start, gs, AsRadix(t));
    } else {
      var sub, entry := t.kids[i].sub, EntryOf(t, i, past, start);
      FitsBelow(t, i);
      GoodBelow(t, gs, i);
      KidsSpanStep(t, i);
      KidsOpen(img, at, past, start, t, i);
      TargetIs(past, start);
      EntryReads(img, at, t.kids[i].key, past - start);
      TrieReads(img, past, start, gs, sub);
      KidsRead(img, at + |entry|, past + Span(sub), start, gs, t, i + 1);
      EdgesIs(img, at, start, gs, AsRadix(t), i, past - start, at + |entry|);
    }
  }

  lemma {:induction false} NoEdgesLeft<R>(img: bytes, at: nat, start: nat, gs: seq<SegmentView<R>>, r: Radix)
    ensures EdgesAt(img, at, start, gs, r, |r.edges|)
  {
  }

  lemma {:induction false} KidsOpen(img: bytes, at: nat, past: nat, start: nat, t: Node, i: nat)
    requires i < |t.kids| && KidsAt(img, at, past, start, t, i) && start <= past < TWO_64
    ensures
      var entry := EntryOf(t, i, past, start);
      && entry == Entry(t.kids[i].key, past - start) && Has(img, at, entry)
      && TrieAt(img, past, start, t.kids[i].sub)
      && KidsAt(img, at + |entry|, past + Span(t.kids[i].sub), start, t, i + 1)
  {
    hide Has, TrieAt, Entry, Span;
    TargetIs(past, start);
  }

  // ----- one character an edge expands to itself -----

  lemma {:induction false} ExpandsToSelf(t: Node)
    requires Fits(t)
    ensures Expand(AsRadix(t)) == t
    decreases t, 1, 0
  {
    hide *;
    AsRadixIs(t);
    ExpandIs(AsRadix(t));
    EdgesExpandToSelf(t, |t.kids|);
    assert t.kids[..|t.kids|] == t.kids;
  }

  lemma {:induction false} ExpandIs(r: Radix)
    ensures Expand(r) == ExpandEdges(r, |r.edges|)
  {
  }

  lemma {:induction false} EdgesExpandToSelf(t: Node, n: nat)
    requires Fits(t) && n <= |t.kids|
    ensures |AsRadix(t).edges| == |t.kids| && ExpandEdges(AsRadix(t), n) == Trie(t.value, t.kids[..n])
    decreases t, 0, n
  {
    hide *;
    AsRadixIs(t);
    if n == 0 {
      ExpandNone(AsRadix(t));
    } else {
      var kid := t.kids[n - 1];
      FitsBelow(t, n - 1);
      EdgesExpandToSelf(t, n - 1);
      ExpandsToSelf(kid.sub);
      ExpandNext(AsRadix(t), n);
      KeyIsNew(t, n - 1);
      SetAtNew(Trie(t.value, t.kids[..n - 1]), kid.key, kid.sub);
      assert t.kids[..n - 1] + [Kid(kid.key, kid.sub)] == t.kids[..n];
    }
  }

  lemma {:induction false} ExpandNone(r: Radix)
    ensures ExpandEdges(r, 0) == Trie(r.value, [])
  {
  }

  lemma {:induction false} ExpandNext(r: Radix, n: nat)
    requires 0 < n <= |r.edges|
    ensures ExpandEdges(r, n) == SetAt(ExpandEdges(r, n - 1), r.edges[n - 1].name, Expand(r.edges[n - 1].sub))
  {
    hide Expand, SetAt;
  }

  lemma {:induction false} KeyIsNew(t: Node, i: nat)
    requires Fits(t) && i < |t.kids|
    ensures Find(t.kids[..i], t.kids[i].key) == i
  {
  }

  lemma {:induction false} SetAtNew(t: Node, key: byte, sub: Node)
    requires Find(t.kids, key) == |t.kids|
    ensures SetAt(t, [key], sub) == Trie(t.value, t.kids + [Kid(key, sub)])
  {
    assert [key][1..] == [];
    assert SetAt(Empty<byte, Export>(), [], sub) == sub;
  }

  /**
   Round trip: parsing what EmitNode wrote, wherever it was written, rebuilds the same trie with the same regular,
   re-export and resolver values.
   */
  lemma {:induction false} EmittedParses<R>(
    t: Node, data: bytes, off: nat, start: nat, gs: seq<SegmentView<R>>, fuel: nat)
    requires Fits(t) && Good(t, gs) && start <= off && off + Span(t) < TWO_64 && fuel >= Depth(AsRadix(t))
    ensures ParseNode(EmitNode(t, data, off, start).0, off, start, gs, fuel) == Ok(t)
  {
    hide *;
    var d := NodeEmitted(t, data, off, start);
    TrieReads(d, off, start, gs, t);
    ParseExpands(d, off, start, gs, AsRadix(t), fuel);
    ExpandsToSelf(t);
  }

  // ----- path-compressed input -----

  /** A byte has 255 values besides the terminator. */
  lemma {:induction false} FewKids(kids: seq<Kid<byte, Export>>)
    requires DistinctKeys(kids) && forall i :: 0 <= i < |kids| ==> kids[i].key != 0
    ensures |kids| < 256
  {
    Subset(KeySet(kids), Range(255));
  }

  function Range(n: nat): (s: set<nat>)
    ensures |s| == n && forall k: nat :: k in s <==> 1 <= k <= n
  {
    if n == 0 then {} else Range(n - 1) + {n}
  }

  function KeySet(kids: seq<Kid<byte, Export>>): (s: set<nat>)
    requires DistinctKeys(kids) && forall i :: 0 <= i < |kids| ==> kids[i].key != 0
    ensures |s| == |kids| && forall k :: k in s ==> 1 <= k < 256 && exists i :: 0 <= i < |kids| && kids[i].key == k
  {
    if kids == [] then {}
    else
      var rest := KeySet(kids[1..]);
      assert kids[0].key !in rest;
      {kids[0].key as nat} + rest
  }

  lemma {:induction false} Subset(a: set<nat>, b: set<nat>)
    requires a <= b
    ensures |a| <= |b|
  {
    if a != {} {
      var x :| x in a;
      Subset(a - {x}, b - {x});
    }
  }

  lemma {:induction false} GoodFits<R>(t: Node, gs: seq<SegmentView<R>>)
    requires Good(t, gs)
    ensures Fits(t)
    decreases t
  {
    hide Sound;
    FewKids(t.kids);
    forall i | 0 <= i < |t.kids| ensures Fits(t.kids[i].sub) {
      GoodFits(t.kids[i].sub, gs);
    }
  }

  lemma {:induction false} SetAtGood<R>(t: Node, path: bytes, sub: Node, gs: seq<SegmentView<R>>)
    requires Good(t, gs) && Good(sub, gs) && 0 !in path
    ensures Good(SetAt(t, path, sub), gs)
    decreases |path|
  {
    hide Sound;
    if path == [] {
    } else {
      var i := Find(t.kids, path[0]);
      if i == |t.kids| {
        assert Good(Trie(None, []), gs);
        SetAtGood(Empty(), path[1..], sub, gs);
      } else {
        SetAtGood(t.kids[i].sub, path[1..], sub, gs);
      }
    }
  }

  /** Names without terminators and symbols that agree with their flags. */
  ghost predicate Clean<R>(r: Radix, gs: seq<SegmentView<R>>)
    decreases r
  {
    && (r.value.Some? ==> Sound(r.value.value, gs))
    && forall i :: 0 <= i < |r.edges| ==> 0 !in r.edges[i].name && Clean(r.edges[i].sub, gs)
  }

  lemma {:induction false} CStringClean(img: bytes, pos: nat)
    ensures CString(img, pos).Ok? ==> 0 !in CString(img, pos).value
    decreases if pos <= |img| then |img| - pos else 0
  {
    if pos < |img| && img[pos] != 0 {
      CStringClean(img, pos + 1);
    }
  }

  lemma {:induction false} ParsedSound<R>(img: bytes, off: nat, size: uint64, gs: seq<SegmentView<R>>)
    requires ParseValue(img, off, size, gs).Ok? && ParseValue(img, off, size, gs).value.Some?
    ensures Sound(ParseValue(img, off, size, gs).value.value, gs)
  {
    hide ReadUleb, CString, SegmentLookup;
    var (flags, o1) := ReadUleb(img, off).value;
    if IsReexport(flags) {
      CStringClean(img, ReadUleb(img, o1).value.1);
    }
  }

  /** Whatever stands in an image is clean. */
  lemma {:induction false} ImageClean<R>(img: bytes, off: nat, start: nat, gs: seq<SegmentView<R>>, r: Radix)
    requires RadixAt(img, off, start, gs, r)
    ensures Clean(r, gs)
    decreases r, 1, 0
  {
    hide ReadUleb, ParseValue, Sound;
    var (size, o1) := ReadUleb(img, off).value;
    if r.value.Some? {
      ParsedSound(img, o1, size, gs);
    }
    EdgesClean(img, o1 + size + 1, start, gs, r, 0);
  }

  lemma {:induction false} EdgesClean<R>(img: bytes, off: nat, start: nat, gs: seq<SegmentView<R>>, r: Radix, i: nat)
    requires i <= |r.edges| && EdgesAt(img, off, start, gs, r, i)
    ensures forall k :: i <= k < |r.edges| ==> 0 !in r.edges[k].name && Clean(r.edges[k].sub, gs)
    decreases r, 0, |r.edges| - i
  {
    hide ReadUleb, CString, RadixAt, Clean;
    if i < |r.edges| {
      CStringClean(img, off);
      var (diff, next) := ReadUleb(img, off + |r.edges[i].name| + 1).value;
      ImageClean(img, Target(diff, start), start, gs, r.edges[i].sub);
      EdgesClean(img, next, start, gs, r, i + 1);
    }
  }

  lemma {:induction false} ExpandGood<R>(r: Radix, gs: seq<SegmentView<R>>)
    requires Clean(r, gs)
    ensures Good(Expand(r), gs)
    decreases r, 1, 0
  {
    hide Sound;
    EdgesGood(r, gs, |r.edges|);
  }

  lemma {:induction false} EdgesGood<R>(r: Radix, gs: seq<SegmentView<R>>, n: nat)
    requires Clean(r, gs) && n <= |r.edges|
    ensures Good(ExpandEdges(r, n), gs)
    decreases r, 0, n
  {
    hide Sound, Expand, SetAt;
    if n == 0 {
    } else {
      assert Clean(r.edges[n - 1].sub, gs);
      EdgesGood(r, gs, n - 1);
      ExpandGood(r.edges[n - 1].sub, gs);
      hide Good;
      SetAtGood(ExpandEdges(r, n - 1), r.edges[n - 1].name, Expand(r.edges[n - 1].sub), gs);
    }
  }

  /**
   Any radix tree in an image survives parsing and re-emission with one character an edge: the trie parsed from
   the new image maps a key to a value exactly when the labels of the old one spelled the key.
   */
  lemma {:induction false} ReemissionDenotes<R>(
    img: bytes, off: nat, start: nat, gs: seq<SegmentView<R>>, r: Radix, fuel: nat,
    data: bytes, off': nat, start': nat, fuel': nat, key: bytes, v: Export)
    requires RadixAt(img, off, start, gs, r) && Proper(r) && fuel >= Depth(r)
    requires start' <= off' && off' + Span(Expand(r)) < TWO_64 && fuel' >= Depth(AsRadix(Expand(r)))
    ensures ParseNode(img, off, start, gs, fuel) == Ok(Expand(r))
    ensures
      var again := ParseNode(EmitNode(Expand(r), data, off', start').0, off', start', gs, fuel');
      again.Ok? && (Lookup(again.value, key) == Some(v) <==> HasEntry(r, key, v))
  {
    hide *;
    ParseExpands(img, off, start, gs, r, fuel);
    ImageClean(img, off, start, gs, r);
    ExpandGood(r, gs);
    GoodFits(Expand(r), gs);
    EmittedParses(Expand(r), data, off', start', gs, fuel');
    ExpandDenotes(r, key, v);
  }
}
