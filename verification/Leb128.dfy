/**
 LEB128 numbers (src/core/leb.c, include/core/leb.hh; section 7.6 of DWARF 4). `Uleb` and `Value` are the
 mathematical encoding and its meaning; the methods are the byte loops, tied to them.
 */
module Leb128 {
  import opened Wrappers
  import opened Arith
  import opened Images

  const MAX_BITS: nat := 64
  const SIZE_MAX: uint64 := 0xFFFF_FFFF_FFFF_FFFF

  /** The unsigned encoding: seven bits a byte, low group first, top bit set on all but the last. */
  function Uleb(n: nat): (s: bytes)
    ensures |s| >= 1
  {
    if n < 128 then [n] else [n % 128 + 128] + Uleb(n / 128)
  }

  /** The number a group of data bits stands for. */
  function Value(s: bytes): nat
  {
    if s == [] then 0 else s[0] % 128 + 128 * Value(s[1..])
  }

  /** How many bytes at the front announce a successor. */
  function Leading(s: bytes): (k: nat)
    ensures k <= |s| && (k < |s| ==> s[k] < 128) && forall i :: 0 <= i < k ==> s[i] >= 128
  {
    if s == [] || s[0] < 128 then 0 else 1 + Leading(s[1..])
  }

  datatype Decoded = Number(n: uint64, len: nat) | Short | Wide

  /** What a decoder of 64-bit numbers should report on `s`. */
  function Decode(s: bytes): Decoded
  {
    var k := Leading(s);
    if k >= 10 then Wide
    else if k == |s| then Short
    else Number(Value(s[..k + 1]) % TWO_64, k + 1)
  }

  // ----- lengths -----

  function Pow128(k: nat): (p: nat)
    ensures p >= 1
  {
    if k == 0 then 1 else 128 * Pow128(k - 1)
  }

  /** The length is the least one possible: `k` bytes suffice exactly when `n` has at most `7 k` bits. */
  lemma {:induction false} UlebLength(n: nat, k: nat)
    requires k >= 1
    ensures |Uleb(n)| <= k <==> n < Pow128(k)
  {
    if n < 128 {
      assert Pow128(k) == 128 * Pow128(k - 1);
    } else if k == 1 {
      assert Pow128(1) == 128 * Pow128(0);
    } else {
      UlebLength(n / 128, k - 1);
      assert Pow128(k) == 128 * Pow128(k - 1);
    }
  }

  lemma {:induction false} Pow128Ten()
    ensures Pow128(10) >= TWO_64
  {
    assert Pow128(3) == 128 * Pow128(2) && Pow128(2) == 128 * Pow128(1);
    assert Pow128(3) == 0x20_0000;
    assert Pow128(6) == 128 * Pow128(5) && Pow128(5) == 128 * Pow128(4);
    assert Pow128(6) == 0x20_0000 * Pow128(3);
    assert Pow128(9) == 128 * Pow128(8) && Pow128(8) == 128 * Pow128(7);
  }

  /** Every 64-bit number needs at most ten bytes, and a larger number never needs fewer. */
  lemma {:induction false} UlebLengthMonotone(m: nat, n: nat)
    requires m <= n
    ensures |Uleb(m)| <= |Uleb(n)|
    ensures n < TWO_64 ==> |Uleb(n)| <= 10
  {
    UlebLength(n, |Uleb(n)|);
    UlebLength(m, |Uleb(n)|);
    UlebLength(n, 10);
    Pow128Ten();
  }

  lemma {:induction false} UlebMaxLength()
    ensures |Uleb(SIZE_MAX)| == 10
  {
    UlebLengthMonotone(SIZE_MAX, SIZE_MAX);
    UlebLength(SIZE_MAX, 9);
    Pow128Nine();
  }

  lemma {:induction false} Pow128Nine()
    ensures Pow128(9) == 0x8000_0000_0000_0000
  {
    assert Pow128(3) == 128 * Pow128(2) && Pow128(2) == 128 * Pow128(1);
    assert Pow128(3) == 0x20_0000;
    assert Pow128(6) == 128 * Pow128(5) && Pow128(5) == 128 * Pow128(4);
    assert Pow128(6) == 0x20_0000 * Pow128(3);
    assert Pow128(9) == 128 * Pow128(8) && Pow128(8) == 128 * Pow128(7);
  }

  // ----- round trips -----

  lemma {:induction false} LeadingOfUleb(n: nat, rest: bytes)
    ensures Leading(Uleb(n) + rest) == |Uleb(n)| - 1
  {
    if n >= 128 {
      LeadingOfUleb(n / 128, rest);
      assert (Uleb(n) + rest)[1..] == Uleb(n / 128) + rest;
    }
  }

  lemma {:induction false} ValueOfUleb(n: nat)
    ensures Value(Uleb(n)) == n
  {
    if n < 128 {
      assert Value(Uleb(n)[1..]) == 0;
    } else {
      assert Uleb(n)[1..] == Uleb(n / 128);
      ValueOfUleb(n / 128);
    }
  }

  /** Decoding what was encoded, whatever bytes follow, returns the number and its length. */
  lemma {:induction false} RoundTrip(n: uint64, rest: bytes)
    ensures Decode(Uleb(n) + rest) == Number(n, |Uleb(n)|)
  {
    LeadingOfUleb(n, rest);
    UlebLengthMonotone(n, n);
    ValueOfUleb(n);
    assert (Uleb(n) + rest)[..|Uleb(n)|] == Uleb(n);
  }

  /** A cut-off encoding is reported as short. */
  lemma {:induction false} CutShort(n: uint64, k: nat)
    requires k < |Uleb(n)|
    ensures Decode(Uleb(n)[..k]) == Short
  {
    LeadingOfUleb(n, []);
    assert Uleb(n) + [] == Uleb(n);
    UlebLengthMonotone(n, n);
    var s := Uleb(n)[..k];
    assert forall i :: 0 <= i < k ==> s[i] == Uleb(n)[i];
    assert Leading(s) == k;
  }

  lemma {:induction false} ValueBound(s: bytes)
    ensures Value(s) < Pow128(|s|)
  {
    if s == [] {
    } else {
      ValueBound(s[1..]);
    }
  }

  /** No byte string that decodes to `n` is shorter than `Uleb(n)`. */
  lemma {:induction false} UlebIsShortest(s: bytes)
    requires Decode(s).Number?
    ensures |Uleb(Decode(s).n)| <= Decode(s).len <= |s|
  {
    var k := Decode(s).len;
    ValueBound(s[..k]);
    UlebLength(Decode(s).n, k);
  }

  lemma {:induction false} ValueSnoc(s: bytes, b: byte)
    ensures Value(s + [b]) == Value(s) + b % 128 * Pow128(|s|)
  {
    if s == [] {
      assert Value([b][1..]) == 0;
    } else {
      ValueSnoc(s[1..], b);
      assert (s + [b])[1..] == s[1..] + [b];
      var x, p := b % 128, Pow128(|s| - 1);
      assert 128 * (x * p) == x * (128 * p);
    }
  }

  lemma {:induction false} Pow128IsPow2(k: nat)
    ensures Pow128(k) == Pow2(7 * k)
  {
    if k == 0 {
    } else {
      Pow128IsPow2(k - 1);
      var j := 7 * (k - 1);
      assert Pow2(j + 2) == 2 * Pow2(j + 1) == 4 * Pow2(j);
      assert Pow2(j + 4) == 2 * Pow2(j + 3) == 4 * Pow2(j + 2);
      assert Pow2(j + 7) == 2 * Pow2(j + 6) == 4 * Pow2(j + 5) == 8 * Pow2(j + 4);
    }
  }

  lemma {:induction false} Distribute(x: int, y: int, m: int)
    ensures (x + y) * m == x * m + y * m
  {
  }

  lemma {:induction false} AddMod(a: int, c: int, m: int)
    requires m > 0
    ensures (a % m + c % m) % m == (a + c) % m
  {
    Distribute(a / m, c / m, m);
    ModShift(a % m + c % m, a / m + c / m, m);
    assert a == a / m * m + a % m && c == c / m * m + c % m;
  }

  // ----- the byte loops -----

  /** The value returned for a buffer of `buflen` bytes: the byte count, `buflen + 1` when short, 0 on overflow. */
  function Count(d: Decoded, buflen: nat): nat
  {
    match d
    case Number(_, len) => len
    case Short => buflen + 1
    case Wide => 0
  }

  lemma {:induction false} DecodeStep(buf: bytes, it: nat, acc: uint64)
    requires it < |buf| && acc == Value(buf[..it]) % TWO_64
    ensures (acc + (buf[it] % 128 * Pow2(7 * it)) % TWO_64) % TWO_64 == Value(buf[..it + 1]) % TWO_64
  {
    hide Value, Pow2, Pow128;
    assert buf[..it + 1] == buf[..it] + [buf[it]];
    ValueSnoc(buf[..it], buf[it]);
    Pow128IsPow2(it);
    AddMod(Value(buf[..it]), buf[it] % 128 * Pow2(7 * it), TWO_64);
  }

  method UlebDecode(buf: bytes) returns (count: nat, n: Option<uint64>)
    ensures count == Count(Decode(buf), |buf|)
    ensures n == if Decode(buf).Number? then Some(Decode(buf).n) else None
  {
    var bits: nat := 0;
    var acc: uint64 := 0;
    var it := 0;
    n := None;
    hide Value, Pow2, Leading;
    while true
      invariant 0 <= it <= |buf| && it < 10 && bits == 7 * it
      invariant forall i :: 0 <= i < it ==> buf[i] >= 128
      invariant acc == Value(buf[..it]) % TWO_64
      decreases |buf| - it
    {
      assert it <= Leading(buf);
      if it == |buf| {
        return |buf| + 1, None;
      }
      var octet := buf[it];
      DecodeStep(buf, it, acc);
      acc := (acc + (octet % 128 * Pow2(bits)) % TWO_64) % TWO_64;
      it := it + 1;
      if octet < 128 {
        return it, Some(acc);
      }
      bits := bits + 7;
      if bits > MAX_BITS {
        assert it == 10 <= Leading(buf);
        return 0, None;
      }
    }
  }

  /** Without a buffer this is the dry run that predicts the length. */
  method UlebEncode(buf: array?<byte>, buflen: nat, n: uint64) returns (count: nat)
    requires buf != null ==> buflen <= buf.Length
    modifies if buf == null then {} else {buf}
    ensures count == if buf != null && |Uleb(n)| > buflen then buflen + 1 else |Uleb(n)|
    ensures buf != null && |Uleb(n)| <= buflen ==> buf[..] == Uleb(n) + old(buf[..])[|Uleb(n)|..]
    ensures buf != null && |Uleb(n)| > buflen ==> buf[..buflen] == Uleb(n)[..buflen]
  {
    var it := 0;
    var m: nat := n;
    while true
      invariant 0 <= it && (buf != null ==> it <= buflen)
      invariant it + |Uleb(m)| == |Uleb(n)| && Uleb(n)[it..] == Uleb(m)
      invariant buf != null ==> buf[..it] == Uleb(n)[..it] && buf[it..] == old(buf[it..])
      decreases m
    {
      if buf != null && it == buflen {
        return buflen + 1;
      }
      assert Uleb(n)[it] == Uleb(m)[0];
      if buf != null {
        buf[it] := m % 128;
      }
      ghost var prev := m;
      m := m / 128;
      if m != 0 {
        if buf != null {
          buf[it] := buf[it] + 128;
        }
        assert Uleb(n)[it + 1..] == Uleb(prev)[1..] == Uleb(m);
      }
      it := it + 1;
      assert buf != null ==> buf[..it] == Uleb(n)[..it];
      if m == 0 {
        break;
      }
    }
    assert Uleb(n)[..it] == Uleb(n);
    return it;
  }

  method Leb128Size(n: uint64) returns (len: nat)
    ensures len == |Uleb(n)|
  {
    len := UlebEncode(null, SIZE_MAX, n);
  }

  /** Encodes through a buffer of exactly the predicted size, then copies it into the image. */
  method Leb128Encode(img: Image, offset: nat, n: uint64) returns (len: nat)
    modifies img
    ensures len == |Uleb(n)| && img.data == Splice(old(img.data), offset, Uleb(n))
  {
    len := Leb128Size(n);
    var buf := new byte[len];
    var written := UlebEncode(buf, len, n);
    assert buf[..] == Uleb(n);
    img.Copy(offset, buf[..]);
  }

  /** Reads a number at `offset`, throwing on overflow and at the end of the image. */
  function ReadUleb(img: bytes, offset: nat): (r: Result<(uint64, nat)>)
    ensures r.Ok? ==> offset + 1 <= r.value.1 <= |img|
  {
    if offset > |img| then Err(PastEnd)
    else match Decode(img[offset..])
      case Number(n, len) => Ok((n, offset + len))
      case Short => Err(PastEnd)
      case Wide => Err(Overflow)
  }

  method Leb128Decode(img: bytes, offset: nat) returns (r: Result<(uint64, nat)>)
    ensures r == ReadUleb(img, offset)
  {
    if offset > |img| {
      return Err(PastEnd);
    }
    var count, n := UlebDecode(img[offset..]);
    if count == 0 {
      return Err(Overflow);
    } else if count > |img| - offset {
      return Err(PastEnd);
    }
    return Ok((n.value, offset + count));
  }

  /** Reading back a number at the place it was written. */
  lemma {:induction false} ReadBack(img: bytes, offset: nat, n: uint64)
    requires Has(img, offset, Uleb(n))
    ensures ReadUleb(img, offset) == Ok((n, offset + |Uleb(n)|))
  {
    RoundTrip(n, img[offset + |Uleb(n)|..]);
    assert img[offset..] == Uleb(n) + img[offset + |Uleb(n)|..];
  }

  /** The examples of section 7.6 of DWARF 4. */
  lemma {:induction false} DwarfExamples()
    ensures Uleb(2) == [2] && Uleb(127) == [127] && Uleb(128) == [0x80, 1] && Uleb(129) == [0x81, 1]
    ensures Uleb(12857) == [0x39 + 0x80, 100]
  {
    assert Uleb(1) == [1] && Uleb(100) == [100];
  }

  // ----- signed numbers -----

  /**
   What the signed encoder writes. Bytes before the last hold the number after its shift, not before it,
   so only the length and the one-byte case agree with the standard.
   */
  function Sleb(n: int): (s: bytes)
    ensures |s| >= 1
    decreases if n >= 0 then n else -n
  {
    if -64 <= n < 64 then [n % 128] else [n / 128 % 128 + 128] + Sleb(n / 128)
  }

  /** The signed length is minimal: `k` bytes suffice exactly when `n` fits `7 k` bits in two's complement. */
  lemma {:induction false} SlebLength(n: int, k: nat)
    requires k >= 1
    ensures |Sleb(n)| <= k <==> -64 * Pow128(k - 1) <= n < 64 * Pow128(k - 1)
    decreases if n >= 0 then n else -n
  {
    if k == 1 || -64 <= n < 64 {
      assert Pow128(0) == 1;
    } else {
      SlebLength(n / 128, k - 1);
      assert Pow128(k - 1) == 128 * Pow128(k - 2);
    }
  }

  /** Without a buffer this is the dry run that predicts the length. */
  method SlebEncode(buf: array?<byte>, buflen: nat, n: int) returns (count: nat)
    requires buf != null ==> buflen <= buf.Length
    modifies if buf == null then {} else {buf}
    ensures count == if buf != null && |Sleb(n)| > buflen then buflen + 1 else |Sleb(n)|
    ensures buf != null && |Sleb(n)| <= buflen ==> buf[..|Sleb(n)|] == Sleb(n)
  {
    var it := 0;
    var m := n;
    while true
      invariant 0 <= it && (buf != null ==> it <= buflen)
      invariant it + |Sleb(m)| == |Sleb(n)| && Sleb(n)[it..] == Sleb(m)
      invariant buf != null ==> buf[..it] == Sleb(n)[..it]
      decreases if m >= 0 then m else -m
    {
      if buf != null && it == buflen {
        return buflen + 1;
      }
      var data := m % 128;
      if buf != null {
        buf[it] := data;
      }
      ghost var prev := m;
      m := m / 128;
      assert Sleb(n)[it] == Sleb(prev)[0];
      if (data >= 64) == (m < 0) && m == (if m < 0 then -1 else 0) {
        assert Sleb(n)[..it + 1] == Sleb(n);
        return it + 1;
      }
      if buf != null {
        buf[it] := m % 128 + 128;
      }
      assert Sleb(n)[it + 1..] == Sleb(prev)[1..] == Sleb(m);
      it := it + 1;
    }
  }

  method SlebEncodeAt(img: Image, offset: nat, n: int) returns (len: nat)
    modifies img
    ensures len == |Sleb(n)| && img.data == Splice(old(img.data), offset, Sleb(n))
  {
    len := SlebEncode(null, SIZE_MAX, n);
    var buf := new byte[len];
    var written := SlebEncode(buf, len, n);
    assert buf[..] == Sleb(n);
    img.Copy(offset, buf[..]);
  }

  // ----- reading a signed number as unsigned -----

  lemma {:induction false} LeadingOfSleb(n: int, rest: bytes)
    ensures Leading(Sleb(n) + rest) == |Sleb(n)| - 1
    decreases if n >= 0 then n else -n
  {
    SlebIs(n);
    hide Sleb, Leading;
    if -64 <= n < 64 {
      LastByte(n % 128, rest);
    } else {
      LeadingOfSleb(n / 128, rest);
      LeadByte(n / 128 % 128 + 128, Sleb(n / 128) + rest);
      assert Sleb(n) + rest == [n / 128 % 128 + 128] + (Sleb(n / 128) + rest);
    }
  }

  lemma {:induction false} SlebIs(n: int)
    ensures Sleb(n) == if -64 <= n < 64 then [n % 128] else [n / 128 % 128 + 128] + Sleb(n / 128)
  {
  }

  lemma {:induction false} LastByte(b: byte, rest: bytes)
    requires b < 128
    ensures Leading([b] + rest) == 0
  {
  }

  lemma {:induction false} LeadByte(b: byte, rest: bytes)
    requires b >= 128
    ensures Leading([b] + rest) == 1 + Leading(rest)
  {
    assert ([b] + rest)[1..] == rest;
  }

  /** All seven-bit groups of `n` are the same and the last leaves the sign clear. */
  predicate SameGroups(n: int)
    decreases if n >= 0 then n else -n
  {
    n >= 0 && (n >= 64 ==> n % 128 == n / 128 % 128 && SameGroups(n / 128))
  }

  lemma {:induction false} SlebStep(n: int)
    requires n >= 64
    ensures Value(Sleb(n)) == n / 128 % 128 + 128 * Value(Sleb(n / 128))
    ensures SameGroups(n) <==> n % 128 == n / 128 % 128 && SameGroups(n / 128)
  {
    assert Sleb(n)[1..] == Sleb(n / 128);
  }

  lemma {:induction false} ValueOfSleb(n: int)
    requires n >= 0
    ensures Value(Sleb(n)) == n <==> SameGroups(n)
  {
    if n < 64 {
      assert Value(Sleb(n)[1..]) == 0;
    } else {
      hide *;
      SlebStep(n);
      ValueOfSleb(n / 128);
    }
  }

  /** The two top groups of a long negative number come out as ones. */
  lemma {:induction false} NegativeValue(n: int, k: nat)
    requires k >= 2 && |Sleb(n)| == k && n < 0 <= n + Pow128(k - 1)
    ensures Value(Sleb(n)) >= 127 * Pow128(k - 1) + 127 * Pow128(k - 2)
    decreases k
  {
    assert Sleb(n)[1..] == Sleb(n / 128);
    assert Pow128(k - 1) == 128 * Pow128(k - 2);
    if k == 2 {
      assert n / 128 == -1;
      assert Value(Sleb(-1)) == 127 by { assert Sleb(-1) == [127]; }
      assert Pow128(1) == 128 && Pow128(0) == 1;
    } else {
      assert Pow128(k - 2) == 128 * Pow128(k - 3);
      NegativeValue(n / 128, k - 1);
    }
  }

  lemma {:induction false} ShortMisread(n: int, v: nat)
    requires -0x8000_0000_0000_0000 <= n < 0 && v < 0x8000_0000_0000_0000
    ensures v % TWO_64 != n % TWO_64
  {
    assert n % TWO_64 == n + TWO_64;
    assert v % TWO_64 == v;
  }

  /** Ten groups, the two topmost of them ones: more than 63 times 2^64. */
  lemma {:induction false} LongMisread(n: int, v: nat)
    requires -0x8000_0000_0000_0000 <= n < -0x4000_0000_0000_0000
    requires 127 * 0x8000_0000_0000_0000 + 127 * 0x100_0000_0000_0000 <= v < 128 * 0x8000_0000_0000_0000
    ensures v % TWO_64 != n % TWO_64
  {
    DivModUnique(v, TWO_64, 63, v - 63 * TWO_64);
    assert n % TWO_64 == n + TWO_64;
  }

  lemma {:induction false} NegativeMisread(n: int)
    requires -0x8000_0000_0000_0000 <= n < 0
    ensures Value(Sleb(n)) % TWO_64 != n % TWO_64
  {
    var k, v := |Sleb(n)|, Value(Sleb(n));
    Pow128Nine();
    Pow128Nines();
    SlebLength(n, 10);
    SlebLength(n, 9);
    ValueBound(Sleb(n));
    hide Sleb, Value, Pow128;
    if k <= 9 {
      Pow128Grows(k, 9);
      ShortMisread(n, v);
    } else {
      NegativeValue(n, 10);
      LongMisread(n, v);
    }
  }

  lemma {:induction false} Pow128Grows(k: nat, m: nat)
    requires k <= m
    ensures Pow128(k) <= Pow128(m)
    decreases m - k
  {
    if k < m {
      Pow128Grows(k, m - 1);
    }
  }

  lemma {:induction false} Pow128Nines()
    ensures Pow128(8) == 0x100_0000_0000_0000 && Pow128(10) == 0x40_0000_0000_0000_0000
  {
    Pow128Nine();
    assert Pow128(9) == 128 * Pow128(8) && Pow128(10) == 128 * Pow128(9);
  }

  lemma {:induction false} SlebDecodes(n: int, rest: bytes)
    requires |Sleb(n)| <= 10
    ensures Decode(Sleb(n) + rest) == Number(Value(Sleb(n)) % TWO_64, |Sleb(n)|)
  {
    hide Sleb, Value, Leading;
    LeadingOfSleb(n, rest);
    assert (Sleb(n) + rest)[..|Sleb(n)|] == Sleb(n);
  }

  lemma {:induction false} SlebReadsNatural(n: nat)
    requires n < 0x8000_0000_0000_0000
    ensures Value(Sleb(n)) % TWO_64 == n % TWO_64 <==> SameGroups(n)
  {
    hide Sleb, Value, SameGroups, Pow128;
    Pow128Nine();
    ValueOfSleb(n);
    SlebValueBelow(n, 9);
  }

  lemma {:induction false} SlebTen(n: int)
    requires -0x8000_0000_0000_0000 <= n < 0x8000_0000_0000_0000
    ensures |Sleb(n)| <= 10 && (n < 0 ==> !SameGroups(n))
  {
    hide Sleb;
    Pow128Nine();
    SlebLength(n, 10);
  }

  /**
   A number written by the signed encoder and read by the unsigned decoder comes back, modulo 2^64, exactly when
   it is not negative and all its groups agree: always for 0 to 63, never for 64 to 127 or below zero.
   */
  lemma {:induction false} SlebReadsBackIff(n: int, rest: bytes)
    requires -0x8000_0000_0000_0000 <= n < 0x8000_0000_0000_0000
    ensures Decode(Sleb(n) + rest) == Number(Value(Sleb(n)) % TWO_64, |Sleb(n)|)
    ensures Decode(Sleb(n) + rest) == Number(n % TWO_64, |Sleb(n)|) <==> SameGroups(n)
  {
    hide *;
    SlebTen(n);
    SlebDecodes(n, rest);
    if n < 0 {
      NegativeMisread(n);
    } else {
      SlebReadsNatural(n);
    }
  }

  lemma {:induction false} SlebValueBelow(n: int, m: nat)
    requires 0 <= n < Pow128(m) && m >= 1
    ensures Value(Sleb(n)) < Pow128(m)
    decreases m
  {
    assert Pow128(m) == 128 * Pow128(m - 1);
    if n < 64 {
      assert Value(Sleb(n)[1..]) == 0;
    } else {
      assert Sleb(n)[1..] == Sleb(n / 128);
      if m == 1 {
        assert n / 128 == 0 && Sleb(0) == [0] && Value([0]) == 0 + 128 * Value([0][1..]);
      } else {
        SlebValueBelow(n / 128, m - 1);
      }
    }
  }
}
