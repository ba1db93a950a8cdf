/** The memory-mapped output file of include/core/image.hh: every write first grows it with zeros. */
module Images {
  import opened Wrappers

  function Zeros(n: nat): (z: bytes)
    ensures |z| == n && forall i :: 0 <= i < n ==> z[i] == 0
  {
    seq(n, i => 0)
  }

  function Grown(s: bytes, n: nat): (g: bytes)
    ensures |g| == if n > |s| then n else |s|
    ensures s <= g
  {
    if n > |s| then s + Zeros(n - |s|) else s
  }

  /** The image after writing `d` at `off`. */
  function Splice(s: bytes, off: nat, d: bytes): (r: bytes)
    ensures |r| == if off + |d| > |s| then off + |d| else |s|
    ensures r[off..off + |d|] == d
  {
    var g := Grown(s, off + |d|);
    g[..off] + d + g[off + |d|..]
  }

  /** The bytes a write can be seen at: everything else keeps its value. */
  lemma {:induction false} SpliceAt(s: bytes, off: nat, d: bytes, i: nat)
    requires i < |Splice(s, off, d)|
    ensures Splice(s, off, d)[i] ==
            if off <= i < off + |d| then d[i - off] else if i < |s| then s[i] else 0
  {
  }

  /** Two adjacent writes are one write of the concatenation. */
  lemma {:induction false} SpliceConcat(s: bytes, off: nat, a: bytes, b: bytes)
    ensures Splice(Splice(s, off, a), off + |a|, b) == Splice(s, off, a + b)
  {
    var l, r := Splice(Splice(s, off, a), off + |a|, b), Splice(s, off, a + b);
    assert |l| == |r|;
    forall i: nat | i < |l| ensures l[i] == r[i] {
      SpliceAt(s, off, a + b, i);
      SpliceAt(Splice(s, off, a), off + |a|, b, i);
      if i < |Splice(s, off, a)| {
        SpliceAt(s, off, a, i);
      }
    }
  }

  /** Overwriting the tail of what was just written. */
  lemma {:induction false} SpliceOver(s: bytes, off: nat, a: bytes, t: bytes, x: bytes)
    requires |t| == |x|
    ensures Splice(Splice(s, off, a + t), off + |a|, x) == Splice(s, off, a + x)
  {
    var mid := Splice(s, off, a + t);
    var l, r := Splice(mid, off + |a|, x), Splice(s, off, a + x);
    assert |l| == |r| == |mid|;
    forall i: nat | i < |l| ensures l[i] == r[i] {
      SpliceAt(s, off, a + x, i);
      SpliceAt(mid, off + |a|, x, i);
      SpliceAt(s, off, a + t, i);
    }
  }

  /** The bytes `s` stand at `off`. */
  predicate Has(img: bytes, off: nat, s: bytes)
  {
    off + |s| <= |img| && img[off..off + |s|] == s
  }

  lemma {:induction false} HasParts(img: bytes, off: nat, a: bytes, b: bytes)
    requires Has(img, off, a + b)
    ensures Has(img, off, a) && Has(img, off + |a|, b)
  {
    var all := img[off..off + |a + b|];
    assert img[off..off + |a|] == all[..|a|] == a;
    assert img[off + |a|..off + |a| + |b|] == all[|a|..] == b;
  }

  lemma {:induction false} HasByte(img: bytes, off: nat, b: byte)
    requires Has(img, off, [b])
    ensures off < |img| && img[off] == b
  {
    assert img[off] == img[off..off + 1][0];
  }

  lemma {:induction false} SpliceHas(data: bytes, off: nat, s: bytes)
    ensures Has(Splice(data, off, s), off, s)
  {
  }

  class Image {
    var data: bytes

    constructor ()
      ensures data == []
    {
      data := [];
    }

    method Put(off: nat, b: byte)
      modifies this
      ensures data == Splice(old(data), off, [b])
    {
      if off + 1 > |data| {
        data := data + Zeros(off + 1 - |data|);
      }
      data := data[off := b];
    }

    method Copy(off: nat, src: bytes)
      modifies this
      ensures data == Splice(old(data), off, src)
    {
      if off + |src| > |data| {
        data := data + Zeros(off + |src| - |data|);
      }
      ghost var grown := data;
      var i := 0;
      while i < |src|
        invariant 0 <= i <= |src| && |data| == |grown|
        invariant data == grown[..off] + src[..i] + grown[off + i..]
      {
        data := data[off + i := src[i]];
        i := i + 1;
      }
    }

    method Memset(off: nat, b: byte, n: nat)
      modifies this
      ensures data == Splice(old(data), off, seq(n, i => b))
    {
      Copy(off, seq(n, i => b));
    }
  }
}
