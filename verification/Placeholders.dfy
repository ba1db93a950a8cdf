/**
 Branch targets become zero-size placeholders (src/core/parse.cc), which Parse2 merges into the blob lists
 (src/core/section.cc) and Archive places at section ends (src/core/archive.cc).
 */
module Placeholders {
  import opened Wrappers
  import opened Blobs

  /** An object: the placeholder or blob for an address of the input, or the `k`-th blob made from one. */
  datatype Ref = PlaceAt(addr: nat) | BlobAt(addr: nat) | Made(from: Ref, k: nat)

  type Content = seq<Blob<Ref>>

  function Mark(addr: nat): Blob<Ref>
  {
    Blob(PlaceAt(addr), true, Location(0, addr), Placeholder)
  }

  // ----- reading a section -----

  /** Parse1: blobs from `loc` to the end of the section; `decode` reads one blob at a location. */
  function ParseBlobs(decode: Location -> Option<Blob<Ref>>, word: nat, loc: Location, size: nat): Result<Content>
    decreases size
  {
    if size == 0 then Ok([])
    else
      match decode(loc)
      case None => Err(Unsupported)
      case Some(b) =>
        if b.Size(word) == 0 || b.Size(word) > size then Err(PastEnd)
        else
          var b' := b.(id := BlobAt(loc.vmaddr), loc := loc);
          match ParseBlobs(decode, word, loc.Plus(b.Size(word)), size - b.Size(word))
          case Err(reason) => Err(reason)
          case Ok(rest) => Ok([b'] + rest)
  }

  /** Blobs tile `[vmaddr, vmaddr + size)`, each named by its address; no placeholder among them. */
  ghost predicate Tiles(content: Content, word: nat, vmaddr: nat, size: nat)
  {
    if content == [] then size == 0
    else
      var b := content[0];
      && b.id == BlobAt(vmaddr) && b.loc.vmaddr == vmaddr
      && 0 < b.Size(word) <= size
      && Tiles(content[1..], word, vmaddr + b.Size(word), size - b.Size(word))
  }

  lemma {:induction false} ParsedTiles(decode: Location -> Option<Blob<Ref>>, word: nat, loc: Location, size: nat)
    requires ParseBlobs(decode, word, loc, size).Ok?
    ensures Tiles(ParseBlobs(decode, word, loc, size).value, word, loc.vmaddr, size)
    decreases size
  {
    if size == 0 {
    } else {
      var b := decode(loc).value;
      ParsedTiles(decode, word, loc.Plus(b.Size(word)), size - b.Size(word));
    }
  }

  method Parse1(decode: Location -> Option<Blob<Ref>>, word: nat, loc: Location, size: nat) returns (r: Result<Content>)
    ensures r == ParseBlobs(decode, word, loc, size)
  {
    var content: Content := [];
    var it, left := loc, size;
    ghost var all := ParseBlobs(decode, word, loc, size);
    assert all.Ok? ==> content + all.value == all.value;
    while left != 0
      invariant all == match ParseBlobs(decode, word, it, left)
                       case Err(reason) => Err(reason)
                       case Ok(rest) => Ok(content + rest)
    {
      var elem := decode(it);
      if elem.None? {
        return Err(Unsupported);
      }
      var n := elem.value.Size(word);
      if n == 0 || n > left {
        return Err(PastEnd);
      }
      var b := elem.value.(id := BlobAt(it.vmaddr), loc := it);
      assert forall rest: Content :: content + ([b] + rest) == (content + [b]) + rest;
      content := content + [b];
      it, left := it.Plus(n), left - n;
    }
    assert content + [] == content;
    return Ok(content);
  }

  // ----- merging placeholders -----

  predicate Ascending(ps: seq<nat>)
  {
    forall i, j :: 0 <= i < j < |ps| ==> ps[i] < ps[j]
  }

  predicate Sorted(content: Content)
  {
    forall i, j :: 0 <= i < j < |content| ==> content[i].loc.vmaddr < content[j].loc.vmaddr
  }

  /** Every address of `ps` that starts a blob gets a placeholder directly before that blob. */
  function Interleave(content: Content, ps: seq<nat>): Content
  {
    if content == [] then []
    else (if content[0].loc.vmaddr in ps then [Mark(content[0].loc.vmaddr)] else []) + [content[0]] +
         Interleave(content[1..], ps)
  }

  ghost predicate Starts(content: Content, addr: nat)
  {
    exists i :: 0 <= i < |content| && content[i].loc.vmaddr == addr
  }

  lemma {:induction false} TilesBounds(content: Content, word: nat, vmaddr: nat, size: nat, i: nat)
    requires Tiles(content, word, vmaddr, size) && i < |content|
    ensures vmaddr <= content[i].loc.vmaddr && content[i].loc.vmaddr + content[i].Size(word) <= vmaddr + size
    ensures content[i].id == BlobAt(content[i].loc.vmaddr) && content[i].Size(word) > 0
  {
    if i == 0 {
    } else {
      var n := content[0].Size(word);
      TilesBounds(content[1..], word, vmaddr + n, size - n, i - 1);
    }
  }

  lemma {:induction false} TilesSorted(content: Content, word: nat, vmaddr: nat, size: nat)
    requires Tiles(content, word, vmaddr, size)
    ensures Sorted(content)
  {
    if content == [] {
    } else {
      var n := content[0].Size(word);
      TilesSorted(content[1..], word, vmaddr + n, size - n);
      forall i, j | 0 <= i < j < |content| ensures content[i].loc.vmaddr < content[j].loc.vmaddr {
        TilesBounds(content[1..], word, vmaddr + n, size - n, j - 1);
      }
    }
  }

  lemma {:induction false} InterleaveNone(content: Content, ps: seq<nat>)
    requires forall i :: 0 <= i < |content| ==> content[i].loc.vmaddr !in ps
    ensures Interleave(content, ps) == content
  {
    if content == [] {
    } else {
      InterleaveNone(content[1..], ps);
    }
  }

  /** Only the addresses that start a blob matter. */
  lemma {:induction false} InterleaveAgrees(content: Content, ps: seq<nat>, qs: seq<nat>)
    requires forall i :: 0 <= i < |content| ==> (content[i].loc.vmaddr in ps <==> content[i].loc.vmaddr in qs)
    ensures Interleave(content, ps) == Interleave(content, qs)
  {
    if content == [] {
    } else {
      InterleaveAgrees(content[1..], ps, qs);
    }
  }

  /** The placeholder map of ParseEnv, an ordered map from address to the placeholder made for it. */
  class ParseEnv {
    var placeholders: seq<nat>

    constructor ()
      ensures placeholders == []
    {
      placeholders := [];
    }

    /** First position whose address is at least `addr`. */
    method LowerBound(addr: nat) returns (k: nat)
      requires Ascending(placeholders)
      ensures k <= |placeholders|
      ensures forall i :: 0 <= i < |placeholders| ==> (placeholders[i] < addr <==> i < k)
    {
      k := 0;
      while k < |placeholders| && placeholders[k] < addr
        invariant k <= |placeholders| && forall i :: 0 <= i < k ==> placeholders[i] < addr
      {
        k := k + 1;
      }
    }

    /** One placeholder per address; address 0 gets none. */
    method AddPlaceholder(addr: nat) returns (p: Option<Ref>)
      requires Ascending(placeholders)
      modifies this
      ensures Ascending(placeholders)
      ensures p == if addr == 0 then None else Some(PlaceAt(addr))
      ensures forall a :: a in placeholders <==> a in old(placeholders) || (a == addr && addr != 0)
    {
      if addr == 0 {
        return None;
      }
      var k := LowerBound(addr);
      if !(k < |placeholders| && placeholders[k] == addr) {
        placeholders := placeholders[..k] + [addr] + placeholders[k..];
        assert old(placeholders) == old(placeholders)[..k] + old(placeholders)[k..];
      }
      return Some(PlaceAt(addr));
    }

    /**
     Section::Parse2: merges the placeholders inside `[addr, addr + size)` into `content` and removes them from
     the map. It fails exactly when one of them does not start a blob.
     */
    method Parse2(content: Content, addr: nat, size: nat) returns (r: Result<Content>)
      requires Ascending(placeholders) && Sorted(content)
      requires forall i :: 0 <= i < |content| ==> addr <= content[i].loc.vmaddr < addr + size
      modifies this
      ensures r.Ok? <==> forall p :: p in old(placeholders) && addr <= p < addr + size ==> Starts(content, p)
      ensures r.Ok? ==> r.value == Interleave(content, old(placeholders))
      ensures r.Ok? ==> Ascending(placeholders)
      ensures r.Ok? ==> forall p :: p in placeholders <==> p in old(placeholders) && !(addr <= p < addr + size)
    {
      var first := LowerBound(addr);
      var last := LowerBound(addr + size);
      assert last < |placeholders| ==> addr <= placeholders[last];
      var chosen := placeholders[first..last];
      SliceMembers(placeholders, first, last, addr, addr + size);
      r := MergeInto(content, chosen);
      InterleaveAgrees(content, chosen, placeholders);
      if r.Ok? {
        placeholders := placeholders[..first] + placeholders[last..];
      }
    }
  }

  /** Cutting the addresses in `[lo, hi)` out of an ascending list. */
  lemma {:induction false} SliceMembers(ps: seq<nat>, first: nat, last: nat, lo: nat, hi: nat)
    requires Ascending(ps) && first <= last <= |ps|
    requires forall i :: 0 <= i < |ps| ==> (ps[i] < lo <==> i < first)
    requires forall i :: 0 <= i < |ps| ==> (ps[i] < hi <==> i < last)
    ensures forall p :: p in ps[first..last] <==> p in ps && lo <= p < hi
    ensures forall p :: p in ps[..first] + ps[last..] <==> p in ps && !(lo <= p < hi)
    ensures Ascending(ps[first..last]) && Ascending(ps[..first] + ps[last..])
  {
    assert ps == ps[..first] + ps[first..last] + ps[last..];
    forall p | p in ps && lo <= p < hi ensures p in ps[first..last] {
      var i :| 0 <= i < |ps| && ps[i] == p;
      assert ps[first..last][i - first] == p;
    }
    forall p | p in ps && !(lo <= p < hi) ensures p in ps[..first] + ps[last..] {
      assert p !in ps[first..last];
    }
  }

  /** Walks the placeholders in address order, each time advancing to the first blob not below it. */
  method MergeInto(content: Content, ps: seq<nat>) returns (r: Result<Content>)
    requires Ascending(ps) && Sorted(content)
    ensures r.Ok? <==> forall p :: p in ps ==> Starts(content, p)
    ensures r.Ok? ==> r.value == Interleave(content, ps)
  {
    var done: Content := [];
    var it := 0;
    for k := 0 to |ps|
      invariant it <= |content|
      invariant forall i :: 0 <= i < it && k < |ps| ==> content[i].loc.vmaddr < ps[k]
      invariant forall i :: 0 <= i < k ==> Starts(content, ps[i])
      invariant done + Interleave(content[it..], ps[k..]) == Interleave(content, ps)
    {
      while it < |content| && content[it].loc.vmaddr < ps[k]
        invariant it <= |content|
        invariant forall i :: 0 <= i < it ==> content[i].loc.vmaddr < ps[k]
        invariant done + Interleave(content[it..], ps[k..]) == Interleave(content, ps)
      {
        PassOver(content, it, ps[k..], done);
        done := done + [content[it]];
        it := it + 1;
      }
      if it == |content| || content[it].loc.vmaddr != ps[k] {
        assert ps[k] in ps && !Starts(content, ps[k]);
        return Err(Misplaced);
      }
      assert Starts(content, ps[k]);
      PlaceHere(content, it, ps[k..], done);
      assert ps[k..][1..] == ps[k + 1..];
      done := done + [Mark(ps[k])];
    }
    InterleaveNone(content[it..], ps[|ps|..]);
    return Ok(done + content[it..]);
  }

  lemma {:induction false} PassOver(content: Content, it: nat, ps: seq<nat>, done: Content)
    requires it < |content| && content[it].loc.vmaddr !in ps
    ensures done + Interleave(content[it..], ps) == (done + [content[it]]) + Interleave(content[it + 1..], ps)
  {
    assert content[it..][1..] == content[it + 1..];
    var rest := Interleave(content[it + 1..], ps);
    assert Interleave(content[it..], ps) == [content[it]] + rest;
  }

  lemma {:induction false} PlaceHere(content: Content, it: nat, ps: seq<nat>, done: Content)
    requires it < |content| && Sorted(content) && Ascending(ps)
    requires ps != [] && content[it].loc.vmaddr == ps[0]
    ensures done + Interleave(content[it..], ps) == (done + [Mark(ps[0])]) + Interleave(content[it..], ps[1..])
  {
    var tail := content[it..];
    assert tail[1..] == content[it + 1..];
    assert ps == [ps[0]] + ps[1..];
    assert ps[0] !in ps[1..];
    InterleaveAgrees(tail[1..], ps, ps[1..]);
    var m, rest := Mark(ps[0]), Interleave(tail[1..], ps);
    assert Interleave(tail, ps) == [m] + [tail[0]] + rest;
    assert Interleave(tail, ps[1..]) == [] + [tail[0]] + rest;
  }
}
