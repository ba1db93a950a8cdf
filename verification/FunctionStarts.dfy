/**
 The list of function starts (src/core/linkedit.cc): file offsets as deltas from the start of __TEXT, padded with
 zeros. `base` is the file offset of the segment, `gs` the segments a reader looks offsets up in.
 */
module FunctionStarts {
  import opened Wrappers
  import opened Arith
  import opened Images
  import opened Leb128
  import opened Layout

  // ----- reading -----

  /** The placeholder for an offset, if it lies in a section. */
  function Place<R>(gs: seq<SegmentView<R>>, offset: nat): seq<nat>
  {
    match SegmentLookup(gs, offset)
    case None => []
    case Some(v) => [v]
  }

  /** The vmaddrs read from `it` up to `end`: a zero delta counts only while the address is still the start. */
  function Read<R>(img: bytes, it: nat, end: nat, refaddr: uint64, base: nat, gs: seq<SegmentView<R>>)
    : Result<seq<nat>>
    decreases if it <= |img| then |img| - it else 0
  {
    if it == end then Ok([])
    else
      var (n, next) :- ReadUleb(img, it);
      if n != 0 || refaddr == base then
        var r := (refaddr + n) % TWO_64;
        Prefixed(Place(gs, r), Read(img, next, end, r, base, gs))
      else Read(img, next, end, refaddr, base, gs)
  }

  method Parse<R>(img: bytes, begin: nat, size: nat, base: uint64, gs: seq<SegmentView<R>>)
    returns (r: Result<seq<nat>>)
    ensures r == Read(img, begin, begin + size, base, base, gs)
  {
    hide ReadUleb, SegmentLookup;
    var it: nat, end, refaddr: uint64, entries: seq<nat> := begin, begin + size, base, [];
    ghost var whole := Read(img, it, end, refaddr, base, gs);
    PrefixedTwice([], [], whole);
    while it != end
      invariant whole == Prefixed(entries, Read(img, it, end, refaddr, base, gs))
      decreases if it <= |img| then |img| - it else 0
    {
      var delta := Leb128Decode(img, it);
      if delta.Err? {
        return Err(delta.reason);
      }
      var (n, next) := delta.value;
      if n != 0 || refaddr == base {
        refaddr := (refaddr + n) % TWO_64;
        PrefixedTwice(entries, Place(gs, refaddr), Read(img, next, end, refaddr, base, gs));
        var vmaddr := SegmentLookup(gs, refaddr);
        entries := entries + if vmaddr.Some? then [vmaddr.value] else [];
      }
      it := next;
    }
    PrefixedTwice(entries, [], Ok([]));
    return Ok(entries);
  }

  // ----- writing -----

  /** The deltas of the entries, from `refaddr` on. */
  function Deltas(entries: seq<uint64>, refaddr: uint64): bytes
  {
    if entries == [] then []
    else Uleb((entries[0] - refaddr) % TWO_64) + Deltas(entries[1..], entries[0])
  }

  function Padding(entries: seq<uint64>, base: uint64, word: nat): nat
    requires word > 0
  {
    AlignUp(|Deltas(entries, base)|, word) - |Deltas(entries, base)|
  }

  /** The whole content: deltas, then zeros up to a multiple of the pointer size. */
  function Content(entries: seq<uint64>, base: uint64, word: nat): bytes
    requires word > 0
  {
    Deltas(entries, base) + Zeros(Padding(entries, base, word))
  }

  /** content_size is the length of what Emit_content writes, padding included. */
  method ContentSize(entries: seq<uint64>, base: uint64, word: nat) returns (size: nat)
    requires word > 0
    ensures size == |Content(entries, base, word)| && size % word == 0
  {
    size := 0;
    var refaddr: uint64 := base;
    for i := 0 to |entries|
      invariant size + |Deltas(entries[i..], refaddr)| == |Deltas(entries, base)|
    {
      assert entries[i..][1..] == entries[i + 1..];
      var len := Leb128Size((entries[i] - refaddr) % TWO_64);
      size := size + len;
      refaddr := entries[i];
    }
    size := AlignUp(size, word);
    AlignUpIsLeast(|Deltas(entries, base)|, word);
  }

  lemma {:induction false} NextDelta(entries: seq<uint64>, i: nat, refaddr: uint64)
    requires i < |entries|
    ensures Deltas(entries[i..], refaddr) == Uleb((entries[i] - refaddr) % TWO_64) + Deltas(entries[i + 1..], entries[i])
  {
    hide Uleb;
    assert entries[i..][1..] == entries[i + 1..];
  }

  /** The loop of Emit_content over the entries. */
  method EmitDeltas(entries: seq<uint64>, base: uint64, img: Image, offset: nat) returns (it: nat)
    modifies img
    ensures it == offset + |Deltas(entries, base)|
    ensures img.data == if entries == [] then old(img.data) else Splice(old(img.data), offset, Deltas(entries, base))
  {
    hide Splice, Uleb, Deltas;
    it := offset;
    var refaddr: uint64 := base;
    ghost var before, done: bytes := img.data, [];
    assert entries[0..] == entries;
    for i := 0 to |entries|
      invariant it == offset + |done| && done + Deltas(entries[i..], refaddr) == Deltas(entries, base)
      invariant if i == 0 then img.data == before && done == [] else img.data == Splice(before, offset, done)
    {
      NextDelta(entries, i, refaddr);
      ghost var delta := Uleb((entries[i] - refaddr) % TWO_64);
      var len := Leb128Encode(img, it, (entries[i] - refaddr) % TWO_64);
      SpliceConcat(before, offset, done, delta);
      assert [] + delta == delta;
      done := done + delta;
      it := it + len;
      refaddr := entries[i];
    }
    assert entries[|entries|..] == [] && Deltas([], refaddr) == [] by { NoDeltas(refaddr); }
    assert done + [] == done;
  }

  lemma {:induction false} NoDeltas(refaddr: uint64)
    ensures Deltas([], refaddr) == []
  {
  }

  lemma {:induction false} ContentIs(entries: seq<uint64>, base: uint64, word: nat)
    requires word > 0
    ensures Content(entries, base, word) == Deltas(entries, base) + Zeros(Padding(entries, base, word))
    ensures |Content(entries, base, word)| == |Deltas(entries, base)| + Padding(entries, base, word)
    ensures entries == [] ==> Content(entries, base, word) == [] && Deltas(entries, base) == []
  {
    hide AlignUp;
    AlignUpIsLeast(0, word);
  }

  lemma {:induction false} ZerosAre(n: nat)
    ensures seq(n, k => 0) == Zeros(n)
  {
  }

  method EmitContent(entries: seq<uint64>, base: uint64, word: nat, img: Image, offset: nat)
    requires word > 0
    modifies img
    ensures img.data == Splice(old(img.data), offset, Content(entries, base, word))
  {
    hide *;
    var size := ContentSize(entries, base, word);
    var end := offset + size;
    ContentIs(entries, base, word);
    ghost var before, pad := img.data, Zeros(Padding(entries, base, word));
    var it := EmitDeltas(entries, base, img, offset);
    img.Memset(it, 0, end - it);
    ZerosAre(end - it);
    SpliceConcat(before, offset, Deltas(entries, base), pad);
    assert [] + pad == pad;
  }

  // ----- reading back -----

  /** In file order, none before the segment. */
  predicate Ordered(entries: seq<uint64>, from: uint64)
  {
    entries == [] || (from <= entries[0] && Ordered(entries[1..], entries[0]))
  }

  function Last(entries: seq<uint64>, base: uint64): uint64
  {
    if entries == [] then base else entries[|entries| - 1]
  }

  /** The entries a reader keeps: a repetition survives only at the start of the segment. */
  function Kept(entries: seq<uint64>, refaddr: uint64, base: uint64): (r: seq<uint64>)
    ensures |r| <= |entries|
  {
    if entries == [] then []
    else
      (if entries[0] != refaddr || refaddr == base then [entries[0]] else []) + Kept(entries[1..], entries[0], base)
  }

  function PlaceAll<R>(gs: seq<SegmentView<R>>, offsets: seq<uint64>): seq<nat>
  {
    if offsets == [] then [] else Place(gs, offsets[0]) + PlaceAll(gs, offsets[1..])
  }

  ghost predicate AllPlaced<R>(gs: seq<SegmentView<R>>, offsets: seq<uint64>)
  {
    forall o :: o in offsets ==> SegmentLookup(gs, o).Some?
  }

  lemma {:induction false} PlaceAllAppend<R>(gs: seq<SegmentView<R>>, a: seq<uint64>, b: seq<uint64>)
    ensures PlaceAll(gs, a + b) == PlaceAll(gs, a) + PlaceAll(gs, b)
  {
    hide Place;
    if a == [] {
      assert a + b == b;
    } else {
      assert (a + b)[1..] == a[1..] + b;
      PlaceAllAppend(gs, a[1..], b);
    }
  }

  lemma {:induction false} PlaceAllLength<R>(gs: seq<SegmentView<R>>, offsets: seq<uint64>)
    requires AllPlaced(gs, offsets)
    ensures |PlaceAll(gs, offsets)| == |offsets|
  {
    hide SegmentLookup;
    if offsets == [] {
    } else {
      assert offsets[0] in offsets;
      PlaceAllLength(gs, offsets[1..]);
    }
  }

  /** What is read for an entry is the address that its file offset leads to. */
  lemma {:induction false} EntriesAreVmaddrs<R>(gs: seq<SegmentView<R>>, offsets: seq<uint64>, i: nat)
    requires AllPlaced(gs, offsets) && i < |offsets|
    ensures |PlaceAll(gs, offsets)| == |offsets| && Some(PlaceAll(gs, offsets)[i]) == SegmentLookup(gs, offsets[i])
  {
    PlaceAllLength(gs, offsets);
    assert offsets[0] in offsets;
    assert |Place(gs, offsets[0])| == 1;
    if i == 0 {
      assert Some(Place(gs, offsets[0])[0]) == SegmentLookup(gs, offsets[0]);
    } else {
      EntriesAreVmaddrs(gs, offsets[1..], i - 1);
    }
    hide SegmentLookup, Place;
  }

  lemma {:induction false} ReadDelta<R>(
    img: bytes, it: nat, end: nat, entry: uint64, refaddr: uint64, base: nat, gs: seq<SegmentView<R>>)
    requires Has(img, it, Uleb((entry - refaddr) % TWO_64)) && refaddr <= entry && it != end
    ensures
      var rest := Read(img, it + |Uleb((entry - refaddr) % TWO_64)|, end, entry, base, gs);
      Read(img, it, end, refaddr, base, gs) ==
      if entry != refaddr || refaddr == base then Prefixed(Place(gs, entry), rest) else rest
  {
    hide Uleb, ReadUleb, Has, Place;
    ReadBack(img, it, (entry - refaddr) % TWO_64);
    assert (entry - refaddr) % TWO_64 == entry - refaddr;
    assert (refaddr + (entry - refaddr)) % TWO_64 == entry;
  }

  lemma {:induction false} DeltasStep<R>(entries: seq<uint64>, refaddr: uint64, base: uint64, gs: seq<SegmentView<R>>)
    ensures TWO_64 == 0x1_0000_0000_0000_0000
    ensures entries == [] ==>
      Deltas(entries, refaddr) == [] && Last(entries, refaddr) == refaddr && PlaceAll(gs, Kept(entries, refaddr, base)) == []
    ensures entries != [] ==>
      var rest, kept := entries[1..], Kept(entries[1..], entries[0], base);
      && Deltas(entries, refaddr) == Uleb((entries[0] - refaddr) % TWO_64) + Deltas(rest, entries[0])
      && Uleb((entries[0] - refaddr) % TWO_64) != []
      && Last(entries, refaddr) == Last(rest, entries[0])
      && (Ordered(entries, refaddr) ==> refaddr <= entries[0] && Ordered(rest, entries[0]))
      && PlaceAll(gs, Kept(entries, refaddr, base)) ==
         if entries[0] != refaddr || refaddr == base then Place(gs, entries[0]) + PlaceAll(gs, kept)
         else PlaceAll(gs, kept)
  {
    if entries != [] {
      assert Uleb((entries[0] - refaddr) % TWO_64) != [];
      hide Uleb, Place;
      var kept := Kept(entries[1..], entries[0], base);
      assert ([entries[0]] + kept)[1..] == kept && [] + kept == kept;
    }
  }

  lemma {:induction false} ReadDeltas<R>(
    entries: seq<uint64>, img: bytes, it: nat, end: nat, refaddr: uint64, base: uint64, gs: seq<SegmentView<R>>)
    requires Ordered(entries, refaddr) && Has(img, it, Deltas(entries, refaddr)) && it + |Deltas(entries, refaddr)| <= end
    ensures Read(img, it, end, refaddr, base, gs) ==
            Prefixed(PlaceAll(gs, Kept(entries, refaddr, base)),
                 Read(img, it + |Deltas(entries, refaddr)|, end, Last(entries, refaddr), base, gs))
    decreases |entries|
  {
    hide *;
    DeltasStep(entries, refaddr, base, gs);
    if entries == [] {
      PrefixedTwice([], [], Read(img, it, end, refaddr, base, gs));
    } else {
      var delta, rest := Uleb((entries[0] - refaddr) % TWO_64), entries[1..];
      HasParts(img, it, delta, Deltas(rest, entries[0]));
      ReadDelta(img, it, end, entries[0], refaddr, base, gs);
      ReadDeltas(rest, img, it + |delta|, end, entries[0], base, gs);
      var kept := Kept(rest, entries[0], base);
      var after := Read(img, it + |Deltas(entries, refaddr)|, end, Last(entries, refaddr), base, gs);
      PrefixedTwice(Place(gs, entries[0]), PlaceAll(gs, kept), after);
    }
  }

  function Copies(n: nat, v: uint64): (r: seq<uint64>)
    ensures |r| == n && forall i :: 0 <= i < n ==> r[i] == v
  {
    if n == 0 then [] else [v] + Copies(n - 1, v)
  }

  lemma {:induction false} ReadZero<R>(
    img: bytes, it: nat, end: nat, refaddr: uint64, base: uint64, gs: seq<SegmentView<R>>)
    requires it < end && ReadUleb(img, it) == Ok((0, it + 1))
    ensures Read(img, it, end, refaddr, base, gs) ==
            if refaddr == base then Prefixed(Place(gs, refaddr), Read(img, it + 1, end, refaddr, base, gs))
            else Read(img, it + 1, end, refaddr, base, gs)
  {
    hide ReadUleb, Place;
  }

  lemma {:induction false} ZerosStep(n: nat)
    requires n > 0
    ensures Zeros(n) == Uleb(0) + Zeros(n - 1) && |Uleb(0)| == 1
  {
    var zero: bytes := [0];
    assert Uleb(0) == zero;
    assert Zeros(n) == zero + Zeros(n - 1);
  }

  lemma {:induction false} CopiesPlaced<R>(n: nat, base: uint64, gs: seq<SegmentView<R>>)
    requires n > 0
    ensures PlaceAll(gs, Copies(n, base)) == Place(gs, base) + PlaceAll(gs, Copies(n - 1, base))
  {
    hide Place;
    assert Copies(n, base)[1..] == Copies(n - 1, base);
  }

  lemma {:induction false} ReadEnd<R>(img: bytes, end: nat, refaddr: uint64, base: uint64, gs: seq<SegmentView<R>>)
    ensures Read(img, end, end, refaddr, base, gs) == Ok([])
    ensures PlaceAll(gs, Copies(0, base)) == []
  {
    hide ReadUleb, Place;
  }

  lemma {:induction false} ConsOk(a: seq<nat>, b: seq<nat>)
    ensures Prefixed(a, Ok(b)) == Ok(a + b)
  {
  }

  /** Padding is ignored, unless the address is still the start of the segment: then every zero is an entry. */
  lemma {:induction false} ReadPadding<R>(
    img: bytes, it: nat, end: nat, refaddr: uint64, base: uint64, gs: seq<SegmentView<R>>)
    requires it <= end && Has(img, it, Zeros(end - it))
    ensures Read(img, it, end, refaddr, base, gs) ==
            Ok(if refaddr == base then PlaceAll(gs, Copies(end - it, base)) else [])
    decreases end - it
  {
    hide *;
    if it == end {
      ReadEnd(img, end, refaddr, base, gs);
    } else {
      ZerosStep(end - it);
      HasParts(img, it, Uleb(0), Zeros(end - it - 1));
      ReadBack(img, it, 0);
      ReadZero(img, it, end, refaddr, base, gs);
      CopiesPlaced(end - it, base, gs);
      ConsOk(Place(gs, base), PlaceAll(gs, Copies(end - it - 1, base)));
      ReadPadding(img, it + 1, end, refaddr, base, gs);
    }
  }

  /** What a reader of the emitted content finds. */
  function Reread(entries: seq<uint64>, base: uint64, word: nat): seq<uint64>
    requires word > 0
  {
    Kept(entries, base, base) + if Last(entries, base) == base then Copies(Padding(entries, base, word), base) else []
  }

  lemma {:induction false} RereadIs<R>(
    entries: seq<uint64>, base: uint64, word: nat, gs: seq<SegmentView<R>>, img: bytes, off: nat)
    requires word > 0 && Ordered(entries, base) && Has(img, off, Content(entries, base, word))
    ensures Read(img, off, off + |Content(entries, base, word)|, base, base, gs) ==
            Ok(PlaceAll(gs, Reread(entries, base, word)))
  {
    hide *;
    ContentIs(entries, base, word);
    var deltas, pad := Deltas(entries, base), Padding(entries, base, word);
    var mid := off + |deltas|;
    HasParts(img, off, deltas, Zeros(pad));
    ReadDeltas(entries, img, off, mid + pad, base, base, gs);
    ReadPadding(img, mid, mid + pad, Last(entries, base), base, gs);
    RereadParts(entries, base, word, gs);
  }

  lemma {:induction false} RereadParts<R>(entries: seq<uint64>, base: uint64, word: nat, gs: seq<SegmentView<R>>)
    requires word > 0
    ensures Prefixed(PlaceAll(gs, Kept(entries, base, base)),
                 Ok(if Last(entries, base) == base then PlaceAll(gs, Copies(Padding(entries, base, word), base)) else []))
            == Ok(PlaceAll(gs, Reread(entries, base, word)))
  {
    hide Kept, Place, Padding;
    PlaceAllAppend(gs, Kept(entries, base, base),
      if Last(entries, base) == base then Copies(Padding(entries, base, word), base) else []);
  }

  /** No entry but the start of the segment is repeated. */
  predicate Distinct(entries: seq<uint64>, refaddr: uint64, base: uint64)
  {
    entries == [] || ((entries[0] != refaddr || refaddr == base) && Distinct(entries[1..], entries[0], base))
  }

  lemma {:induction false} KeptIff(entries: seq<uint64>, refaddr: uint64, base: uint64)
    ensures Distinct(entries, refaddr, base) ==> Kept(entries, refaddr, base) == entries
    ensures !Distinct(entries, refaddr, base) ==> |Kept(entries, refaddr, base)| < |entries|
  {
    if entries == [] {
    } else {
      KeptIff(entries[1..], entries[0], base);
    }
  }

  /** A list that ends at the start of the segment holds nothing else. */
  lemma {:induction false} AllAtStart(entries: seq<uint64>, from: uint64, base: uint64)
    requires Ordered(entries, from) && base <= from && entries != [] && Last(entries, base) == base
    ensures from == base && Distinct(entries, from, base) && entries[0] == base
  {
    if |entries| > 1 {
      assert Last(entries[1..], base) == Last(entries, base);
      AllAtStart(entries[1..], entries[0], base);
    } else {
      assert Distinct(entries[1..], entries[0], base);
    }
  }

  /**
   Round trip, exactly: a list of placed offsets in file order is read back as it was written if and only if no
   offset behind the start of the segment is repeated, and a non-empty list of nothing but that start needs no padding.
   */
  lemma {:induction false} ReadsBackIff<R>(
    entries: seq<uint64>, base: uint64, word: nat, gs: seq<SegmentView<R>>, img: bytes, off: nat)
    requires word > 0 && Ordered(entries, base) && AllPlaced(gs, entries)
    requires Has(img, off, Content(entries, base, word))
    ensures
      Read(img, off, off + |Content(entries, base, word)|, base, base, gs) == Ok(PlaceAll(gs, entries)) <==>
      Distinct(entries, base, base)
      && (entries != [] && Last(entries, base) == base ==> Padding(entries, base, word) == 0)
  {
    hide *;
    RereadIs(entries, base, word, gs, img, off);
    RereadSameIff(entries, base, word, gs);
  }

  lemma {:induction false} RereadSameIff<R>(entries: seq<uint64>, base: uint64, word: nat, gs: seq<SegmentView<R>>)
    requires word > 0 && Ordered(entries, base) && AllPlaced(gs, entries)
    ensures
      PlaceAll(gs, Reread(entries, base, word)) == PlaceAll(gs, entries) <==>
      Distinct(entries, base, base)
      && (entries != [] && Last(entries, base) == base ==> Padding(entries, base, word) == 0)
  {
    hide Padding, SegmentLookup, Place;
    KeptIff(entries, base, base);
    PlaceAllLength(gs, entries);
    if entries == [] {
      ContentIs(entries, base, word);
      assert Padding(entries, base, word) == 0;
    } else if Last(entries, base) == base {
      AllAtStart(entries, base, base);
      assert entries[0] in entries;
      var again := Reread(entries, base, word);
      assert AllPlaced(gs, again);
      PlaceAllLength(gs, again);
      assert Padding(entries, base, word) == 0 ==> again == entries;
    } else {
      KeptSubset(entries, base, base);
      PlaceAllLength(gs, Kept(entries, base, base));
      assert Reread(entries, base, word) == Kept(entries, base, base);
    }
  }

  lemma {:induction false} KeptSubset(entries: seq<uint64>, refaddr: uint64, base: uint64)
    ensures forall o :: o in Kept(entries, refaddr, base) ==> o in entries
  {
    if entries == [] {
    } else {
      KeptSubset(entries[1..], entries[0], base);
    }
  }
}
