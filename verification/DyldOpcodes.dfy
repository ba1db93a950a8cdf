/**
 What each opcode byte of the rebase and bind streams does (src/core/rebase_info.cc, src/core/dyldinfo.cc), byte by byte
 and address by address, with the opcode numbers of <mach-o/loader.h>. The high half of a byte is the opcode, the low
 half its immediate `imm`; `n` and `m` are the LEB128 numbers that follow.
 */
module DyldOpcodes {
  import opened Wrappers
  import opened Arith
  import opened Images
  import opened Leb128
  import opened Fixups
  import R = Rebase
  import B = Bind

  // ----- the bytes of an opcode -----

  lemma {:induction false} OneNumber(img: bytes, it: nat, b: byte, n: uint64)
    requires Has(img, it, [b] + Uleb(n))
    ensures it < |img| && img[it] == b && ReadUleb(img, it + 1) == Ok((n, it + 1 + |Uleb(n)|))
  {
    hide *;
    HasParts(img, it, [b], Uleb(n));
    HasByte(img, it, b);
    ReadBack(img, it + 1, n);
  }

  lemma {:induction false} TwoNumbers(img: bytes, it: nat, b: byte, n: uint64, m: uint64)
    requires Has(img, it, [b] + Uleb(n) + Uleb(m))
    ensures it < |img| && img[it] == b && ReadUleb(img, it + 1) == Ok((n, it + 1 + |Uleb(n)|))
    ensures ReadUleb(img, it + 1 + |Uleb(n)|) == Ok((m, it + 1 + |Uleb(n)| + |Uleb(m)|))
  {
    hide *;
    HasParts(img, it, [b] + Uleb(n), Uleb(m));
    OneNumber(img, it, b, n);
    ReadBack(img, it + 1 + |Uleb(n)|, m);
  }

  lemma {:induction false} HighLow(high: nibble, imm: nibble)
    ensures (high * 16 + imm) / 16 == high && (high * 16 + imm) % 16 == imm && high * 16 + imm < 256
  {
  }

  // ----- addresses of a run -----

  function Wrap(n: nat): uint64
  {
    n % TWO_64
  }

  function Spaced(start: nat, k: nat, stride: nat): uint64
  {
    Wrap(start + k * stride)
  }

  lemma {:induction false} SpacedStep(start: nat, k: nat, stride: nat)
    ensures Spaced(Wrap(start + stride), k, stride) == Spaced(start, k + 1, stride)
    ensures Spaced(start, 0, stride) == Wrap(start)
  {
    AddWraps(start, stride, k * stride);
    assert start + stride + k * stride == start + (k + 1) * stride;
  }

  // ----- rebase -----

  /** `count` pointers from `c` on, `stride` bytes apart. */
  function Slides(c: R.Cursor, count: nat, stride: nat): seq<R.Rebasee>
  {
    seq(count, k requires 0 <= k < count => R.Rebasee(Spaced(c.vmaddr, k, stride), c.ty))
  }

  /** A run in closed form. */
  lemma {:induction false} RunIs(count: nat, stride: nat, c: R.Cursor)
    ensures R.Run(count, stride, c) == (R.Cursor(Spaced(c.vmaddr, count, stride), c.ty), Slides(c, count, stride))
    decreases count
  {
    SpacedStep(c.vmaddr, 0, stride);
    if count == 0 {
      assert Spaced(c.vmaddr, 0, stride) == c.vmaddr && Slides(c, 0, stride) == [];
    } else {
      var next := c.(vmaddr := (c.vmaddr + stride) % TWO_64);
      RunIs(count - 1, stride, next);
      var all, rest := Slides(c, count, stride), Slides(next, count - 1, stride);
      forall k | 0 <= k < count ensures all[k] == ([R.Rebasee(c.vmaddr, c.ty)] + rest)[k] {
        if k > 0 {
          SpacedStep(c.vmaddr, k - 1, stride);
        }
      }
      assert all == [R.Rebasee(c.vmaddr, c.ty)] + rest;
      SpacedStep(c.vmaddr, count - 1, stride);
    }
  }

  /** The stream at `it` rebases `out` and goes on `len` bytes later with the cursor `next`. */
  ghost predicate Rebases(
    img: bytes, it: nat, end: nat, c: R.Cursor, segs: seq<uint64>, word: nat, len: nat, next: R.Cursor, out: seq<R.Rebasee>)
  {
    R.Interp(img, it, end, c, segs, word) == Prefixed(out, R.Interp(img, it + len, end, next, segs, word))
  }

  lemma {:induction false} RebasesBy(
    img: bytes, it: nat, end: nat, c: R.Cursor, segs: seq<uint64>, word: nat, op: R.Opcode, len: nat, next: R.Cursor,
    out: seq<R.Rebasee>)
    requires it != end && R.ReadOp(img, it) == Ok((op, it + len)) && !op.Done?
    requires R.Apply(op, c, segs, word) == Ok((next, out))
    ensures Rebases(img, it, end, c, segs, word, len, next, out)
  {
    hide R.ReadOp, R.Apply;
  }

  /** Opcodes without a number: 0x0_, 0x1_, 0x4_, 0x5_, and 0x9_ to 0xf_, which end in an error. */
  lemma {:induction false} RebaseBytes(
    img: bytes, it: nat, end: nat, c: R.Cursor, segs: seq<uint64>, word: nat, imm: nibble)
    requires it != end
    ensures Has(img, it, [0x00 + imm]) ==> R.Interp(img, it, end, c, segs, word) == Ok([])
    ensures Has(img, it, [0x10 + imm]) ==> Rebases(img, it, end, c, segs, word, 1, R.Cursor(c.vmaddr, imm), [])
    ensures Has(img, it, [0x40 + imm]) ==>
      Rebases(img, it, end, c, segs, word, 1, R.Cursor(Spaced(c.vmaddr, imm, word), c.ty), [])
    ensures Has(img, it, [0x50 + imm]) ==>
      Rebases(img, it, end, c, segs, word, 1, R.Cursor(Spaced(c.vmaddr, imm, word), c.ty), Slides(c, imm, word))
    ensures forall b: byte :: b >= 0x90 && Has(img, it, [b]) ==> R.Interp(img, it, end, c, segs, word) == Err(BadOpcode)
  {
    hide Has, R.Interp, R.Run, R.Apply, Rebases, Slides, Spaced;
    HighLow(0, imm);
    HighLow(1, imm);
    HighLow(4, imm);
    HighLow(5, imm);
    if Has(img, it, [0x00 + imm]) {
      HasByte(img, it, 0x00 + imm);
      DoneStops(img, it, end, c, segs, word);
    }
    if Has(img, it, [0x10 + imm]) {
      HasByte(img, it, 0x10 + imm);
      SetTypeIs(imm, c, segs, word);
      RebasesBy(img, it, end, c, segs, word, R.SetType(imm), 1, R.Cursor(c.vmaddr, imm), []);
    }
    if Has(img, it, [0x40 + imm]) {
      HasByte(img, it, 0x40 + imm);
      ScaledIs(imm, c, segs, word);
      RebasesBy(img, it, end, c, segs, word, R.AddScaled(imm), 1, R.Cursor(Spaced(c.vmaddr, imm, word), c.ty), []);
    }
    if Has(img, it, [0x50 + imm]) {
      HasByte(img, it, 0x50 + imm);
      RunIs(imm, word, c);
      TimesIs(imm, c, segs, word);
      RebasesBy(img, it, end, c, segs, word, R.DoImm(imm), 1, R.Cursor(Spaced(c.vmaddr, imm, word), c.ty), Slides(c, imm, word));
    }
    forall b: byte | b >= 0x90 && Has(img, it, [b]) ensures R.Interp(img, it, end, c, segs, word) == Err(BadOpcode) {
      HasByte(img, it, b);
      BadStops(img, it, end, c, segs, word);
    }
  }

  lemma {:induction false} DoneStops(img: bytes, it: nat, end: nat, c: R.Cursor, segs: seq<uint64>, word: nat)
    requires R.ReadOp(img, it).Ok? && R.ReadOp(img, it).value.0.Done?
    ensures R.Interp(img, it, end, c, segs, word) == Ok([])
  {
    hide R.ReadOp, R.Apply;
  }

  lemma {:induction false} BadStops(img: bytes, it: nat, end: nat, c: R.Cursor, segs: seq<uint64>, word: nat)
    requires it != end && R.ReadOp(img, it).Err?
    ensures R.Interp(img, it, end, c, segs, word) == Err(R.ReadOp(img, it).reason)
  {
    hide R.ReadOp, R.Apply;
  }

  lemma {:induction false} SetTypeIs(ty: nibble, c: R.Cursor, segs: seq<uint64>, word: nat)
    ensures R.Apply(R.SetType(ty), c, segs, word) == Ok((R.Cursor(c.vmaddr, ty), []))
  {
  }

  lemma {:induction false} ScaledIs(scale: nibble, c: R.Cursor, segs: seq<uint64>, word: nat)
    ensures R.Apply(R.AddScaled(scale), c, segs, word) == Ok((R.Cursor(Spaced(c.vmaddr, scale, word), c.ty), []))
  {
  }

  lemma {:induction false} TimesIs(count: uint64, c: R.Cursor, segs: seq<uint64>, word: nat)
    ensures count < 16 ==> R.Apply(R.DoImm(count), c, segs, word) == Ok(R.Run(count, word, c))
    ensures R.Apply(R.DoUleb(count), c, segs, word) == Ok(R.Run(count, word, c))
  {
    hide R.Run;
  }

  /** Opcodes with numbers: 0x2_, 0x3_, 0x6_, 0x7_ and 0x8_. */
  lemma {:induction false} RebaseNumbers(
    img: bytes, it: nat, end: nat, c: R.Cursor, segs: seq<uint64>, word: nat, imm: nibble, n: uint64, m: uint64)
    requires it != end
    ensures Has(img, it, [0x20 + imm] + Uleb(n)) && imm < |segs| ==>
      Rebases(img, it, end, c, segs, word, 1 + |Uleb(n)|, R.Cursor(Wrap(segs[imm] + n), c.ty), [])
    ensures Has(img, it, [0x20 + imm] + Uleb(n)) && imm >= |segs| ==>
      R.Interp(img, it, end, c, segs, word) == Err(BadSegment)
    ensures Has(img, it, [0x30 + imm] + Uleb(n)) ==>
      Rebases(img, it, end, c, segs, word, 1 + |Uleb(n)|, R.Cursor(Wrap(c.vmaddr + n), c.ty), [])
    ensures Has(img, it, [0x60 + imm] + Uleb(n)) ==>
      Rebases(img, it, end, c, segs, word, 1 + |Uleb(n)|, R.Cursor(Spaced(c.vmaddr, n, word), c.ty), Slides(c, n, word))
    ensures Has(img, it, [0x70 + imm] + Uleb(n)) ==>
      Rebases(img, it, end, c, segs, word, 1 + |Uleb(n)|, R.Cursor(Wrap(c.vmaddr + word + n), c.ty), Slides(c, 1, word))
    ensures Has(img, it, [0x80 + imm] + Uleb(n) + Uleb(m)) ==>
      Rebases(img, it, end, c, segs, word, 1 + |Uleb(n)| + |Uleb(m)|, R.Cursor(Spaced(c.vmaddr, n, word + m), c.ty),
              Slides(c, n, word + m))
  {
    hide *;
    if Has(img, it, [0x20 + imm] + Uleb(n)) {
      OneNumber(img, it, 0x20 + imm, n);
      NumberOps(img, it, imm, n);
      SegOffIs(imm, n, c, segs, word);
      if imm < |segs| {
        RebasesBy(img, it, end, c, segs, word, R.SetSegOff(imm, n), 1 + |Uleb(n)|, R.Cursor(Wrap(segs[imm] + n), c.ty), []);
      } else {
        NoSegment(img, it, end, c, segs, word, imm, n, it + 1 + |Uleb(n)|);
      }
    }
    if Has(img, it, [0x30 + imm] + Uleb(n)) {
      OneNumber(img, it, 0x30 + imm, n);
      NumberOps(img, it, imm, n);
      AddIs(n, c, segs, word);
      RebasesBy(img, it, end, c, segs, word, R.AddAddr(n), 1 + |Uleb(n)|, R.Cursor(Wrap(c.vmaddr + n), c.ty), []);
    }
    if Has(img, it, [0x60 + imm] + Uleb(n)) {
      OneNumber(img, it, 0x60 + imm, n);
      NumberOps(img, it, imm, n);
      RunIs(n, word, c);
      TimesIs(n, c, segs, word);
      RebasesBy(img, it, end, c, segs, word, R.DoUleb(n), 1 + |Uleb(n)|, R.Cursor(Spaced(c.vmaddr, n, word), c.ty),
                Slides(c, n, word));
    }
    if Has(img, it, [0x70 + imm] + Uleb(n)) {
      OneNumber(img, it, 0x70 + imm, n);
      NumberOps(img, it, imm, n);
      DoAddIs(n, c, segs, word);
      RebasesBy(img, it, end, c, segs, word, R.DoAddAddr(n), 1 + |Uleb(n)|, R.Cursor(Wrap(c.vmaddr + word + n), c.ty),
                Slides(c, 1, word));
    }
    if Has(img, it, [0x80 + imm] + Uleb(n) + Uleb(m)) {
      TwoNumbers(img, it, 0x80 + imm, n, m);
      SkipOp(img, it, imm, n, m);
      RunIs(n, word + m, c);
      SkipIs(n, m, c, segs, word);
      RebasesBy(img, it, end, c, segs, word, R.DoSkip(n, m), 1 + |Uleb(n)| + |Uleb(m)|,
                R.Cursor(Spaced(c.vmaddr, n, word + m), c.ty), Slides(c, n, word + m));
    }
  }

  lemma {:induction false} NumberOps(img: bytes, it: nat, imm: nibble, n: uint64)
    requires it < |img| && ReadUleb(img, it + 1) == Ok((n, it + 1 + |Uleb(n)|))
    ensures img[it] == 0x20 + imm ==> R.ReadOp(img, it) == Ok((R.SetSegOff(imm, n), it + 1 + |Uleb(n)|))
    ensures img[it] == 0x30 + imm ==> R.ReadOp(img, it) == Ok((R.AddAddr(n), it + 1 + |Uleb(n)|))
    ensures img[it] == 0x60 + imm ==> R.ReadOp(img, it) == Ok((R.DoUleb(n), it + 1 + |Uleb(n)|))
    ensures img[it] == 0x70 + imm ==> R.ReadOp(img, it) == Ok((R.DoAddAddr(n), it + 1 + |Uleb(n)|))
  {
    HighLow(2, imm);
    HighLow(3, imm);
    HighLow(6, imm);
    HighLow(7, imm);
    hide ReadUleb, Uleb;
  }

  lemma {:induction false} SkipOp(img: bytes, it: nat, imm: nibble, n: uint64, m: uint64)
    requires it < |img| && img[it] == 0x80 + imm && ReadUleb(img, it + 1) == Ok((n, it + 1 + |Uleb(n)|))
    requires ReadUleb(img, it + 1 + |Uleb(n)|) == Ok((m, it + 1 + |Uleb(n)| + |Uleb(m)|))
    ensures R.ReadOp(img, it) == Ok((R.DoSkip(n, m), it + 1 + |Uleb(n)| + |Uleb(m)|))
  {
    HighLow(8, imm);
    hide ReadUleb, Uleb;
  }

  lemma {:induction false} SegOffIs(imm: nibble, n: uint64, c: R.Cursor, segs: seq<uint64>, word: nat)
    ensures imm < |segs| ==>
      R.Apply(R.SetSegOff(imm, n), c, segs, word) == Ok((R.Cursor(Wrap(segs[imm] + n), c.ty), []))
    ensures imm >= |segs| ==> R.Apply(R.SetSegOff(imm, n), c, segs, word) == Err(BadSegment)
  {
  }

  lemma {:induction false} NoSegment(
    img: bytes, it: nat, end: nat, c: R.Cursor, segs: seq<uint64>, word: nat, imm: nibble, n: uint64, next: nat)
    requires it != end && R.ReadOp(img, it) == Ok((R.SetSegOff(imm, n), next))
    requires R.Apply(R.SetSegOff(imm, n), c, segs, word) == Err(BadSegment)
    ensures R.Interp(img, it, end, c, segs, word) == Err(BadSegment)
  {
    hide R.ReadOp, R.Apply;
  }

  lemma {:induction false} AddIs(n: uint64, c: R.Cursor, segs: seq<uint64>, word: nat)
    ensures R.Apply(R.AddAddr(n), c, segs, word) == Ok((R.Cursor(Wrap(c.vmaddr + n), c.ty), []))
  {
  }

  lemma {:induction false} DoAddIs(n: uint64, c: R.Cursor, segs: seq<uint64>, word: nat)
    ensures R.Apply(R.DoAddAddr(n), c, segs, word) ==
            Ok((R.Cursor(Wrap(c.vmaddr + word + n), c.ty), Slides(c, 1, word)))
  {
    AddWraps(c.vmaddr, word, n);
    assert Slides(c, 1, word) == [R.Rebasee(c.vmaddr, c.ty)];
  }

  lemma {:induction false} SkipIs(n: uint64, m: uint64, c: R.Cursor, segs: seq<uint64>, word: nat)
    ensures R.Apply(R.DoSkip(n, m), c, segs, word) == Ok(R.Run(n, word + m, c))
  {
    hide R.Run;
  }

  // ----- bind -----

  /** The stream at `it` binds `out` and goes on `len` bytes later with the cursor `next`. */
  ghost predicate Binds(
    img: bytes, begin: nat, it: nat, end: nat, lazy: bool, c: B.Cursor, segs: seq<uint64>, word: nat, len: nat,
    next: B.Cursor, out: seq<B.Bindee>)
    requires begin <= it
  {
    B.Interp(img, begin, it, end, lazy, c, segs, word) ==
    Prefixed(out, B.Interp(img, begin, it + len, end, lazy, next, segs, word))
  }

  ghost predicate Refused(
    img: bytes, begin: nat, it: nat, end: nat, lazy: bool, c: B.Cursor, segs: seq<uint64>, word: nat, reason: Reason)
    requires begin <= it
  {
    B.Interp(img, begin, it, end, lazy, c, segs, word) == Err(reason)
  }

  lemma {:induction false} BindsBy(
    img: bytes, begin: nat, it: nat, end: nat, lazy: bool, c: B.Cursor, segs: seq<uint64>, word: nat, op: B.Opcode, len: nat,
    next: B.Cursor, out: seq<B.Bindee>)
    requires begin <= it != end && B.ReadOp(img, it, end, lazy) == Ok((op, it + len))
    requires B.Apply(img, op, it + len - begin, c, segs, word) == Ok((next, out))
    ensures Binds(img, begin, it, end, lazy, c, segs, word, len, next, out)
  {
    hide B.ReadOp, B.Apply;
  }

  lemma {:induction false} NotRead(
    img: bytes, begin: nat, it: nat, end: nat, lazy: bool, c: B.Cursor, segs: seq<uint64>, word: nat, reason: Reason)
    requires begin <= it != end && B.ReadOp(img, it, end, lazy) == Err(reason)
    ensures Refused(img, begin, it, end, lazy, c, segs, word, reason)
  {
    hide B.ReadOp, B.Apply;
  }

  /** The symbol the cursor holds. */
  ghost predicate Named(img: bytes, c: B.Cursor, name: bytes)
  {
    c.sym.Some? && B.CString(img, c.sym.value) == Ok(name)
  }

  /** `count` pointers from `c` on, one word apart, with what the cursor holds. */
  function Bound(c: B.Cursor, name: bytes, count: nat, word: nat): seq<B.Bindee>
  {
    seq(count, k requires 0 <= k < count =>
      B.Bindee(Spaced(c.vmaddr, k, word), c.ty, c.addend, c.dylib, name, c.flags, c.index))
  }

  /** No pointer of the run is at address zero, where nothing is bound. */
  predicate NonZero(c: B.Cursor, count: nat, word: nat)
  {
    forall k :: 0 <= k < count ==> Spaced(c.vmaddr, k, word) != 0
  }

  function At(c: B.Cursor, vmaddr: uint64): B.Cursor
  {
    c.(vmaddr := vmaddr)
  }

  lemma {:induction false} OneBound(img: bytes, c: B.Cursor, name: bytes, word: nat)
    requires Named(img, c, name)
    ensures B.BindOne(img, c) == Ok(if c.vmaddr == 0 then [] else Bound(c, name, 1, word))
  {
    hide B.CString;
    assert Spaced(c.vmaddr, 0, word) == c.vmaddr;
    assert Bound(c, name, 1, word) == [B.Bindee(c.vmaddr, c.ty, c.addend, c.dylib, name, c.flags, c.index)];
  }

  lemma {:induction false} RunBound(img: bytes, count: nat, c: B.Cursor, name: bytes, word: nat)
    requires Named(img, c, name) && NonZero(c, count, word)
    ensures B.Run(img, count, c, word) == Ok((At(c, Spaced(c.vmaddr, count, word)), Bound(c, name, count, word)))
    decreases count
  {
    hide B.CString, B.BindOne;
    if count == 0 {
      assert Spaced(c.vmaddr, 0, word) == c.vmaddr && Bound(c, name, 0, word) == [];
    } else {
      var next := B.Moved(c, word);
      forall k | 0 <= k < count - 1 ensures Spaced(next.vmaddr, k, word) != 0 {
        SpacedStep(c.vmaddr, k, word);
      }
      RunBound(img, count - 1, next, name, word);
      OneBound(img, c, name, word);
      assert Spaced(c.vmaddr, 0, word) == c.vmaddr;
      var all, rest := Bound(c, name, count, word), Bound(next, name, count - 1, word);
      forall k | 0 <= k < count ensures all[k] == (Bound(c, name, 1, word) + rest)[k] {
        if k > 0 {
          SpacedStep(c.vmaddr, k - 1, word);
        }
      }
      assert all == Bound(c, name, 1, word) + rest;
      SpacedStep(c.vmaddr, count - 1, word);
    }
  }

  /** DONE, the ordinals, the type and the address, and the opcodes that are not supported. */
  lemma {:induction false} BindBytes(
    img: bytes, begin: nat, it: nat, end: nat, lazy: bool, c: B.Cursor, segs: seq<uint64>, word: nat, imm: nibble, b: byte)
    requires begin <= it != end
    ensures Has(img, it, [0x00 + imm]) ==>
      Binds(img, begin, it, end, lazy, c, segs, word, 1,
            B.Cursor(c.vmaddr, 0, 0, 0, c.sym, 0, (it + 1 - begin) % 0x1_0000_0000), [])
    ensures Has(img, it, [0x10 + imm]) ==> Binds(img, begin, it, end, lazy, c, segs, word, 1, c.(dylib := imm), [])
    ensures Has(img, it, [0x30 + imm]) ==> Refused(img, begin, it, end, lazy, c, segs, word, Unsupported)
    ensures Has(img, it, [0x50 + imm]) ==> Binds(img, begin, it, end, lazy, c, segs, word, 1, c.(ty := imm), [])
    ensures Has(img, it, [0xd0 + imm]) ==>
      Refused(img, begin, it, end, lazy, c, segs, word, if lazy then BadOpcode else Unsupported)
    ensures Has(img, it, [b]) && (b >= 0xe0 || (lazy && b / 16 in {6, 8, 10, 11, 12})) ==>
      Refused(img, begin, it, end, lazy, c, segs, word, BadOpcode)
  {
    hide Has, B.Interp, B.Run, B.Apply, Binds, Refused;
    HighLow(0, imm);
    HighLow(1, imm);
    HighLow(3, imm);
    HighLow(5, imm);
    HighLow(13, imm);
    if Has(img, it, [0x00 + imm]) {
      HasByte(img, it, 0x00 + imm);
      PlainOps(img, imm, it + 1 - begin, c, segs, word);
      BindsBy(img, begin, it, end, lazy, c, segs, word, B.Done, 1,
              B.Cursor(c.vmaddr, 0, 0, 0, c.sym, 0, (it + 1 - begin) % 0x1_0000_0000), []);
    }
    if Has(img, it, [0x10 + imm]) {
      HasByte(img, it, 0x10 + imm);
      PlainOps(img, imm, it + 1 - begin, c, segs, word);
      BindsBy(img, begin, it, end, lazy, c, segs, word, B.SetOrdinal(imm), 1, c.(dylib := imm), []);
    }
    if Has(img, it, [0x30 + imm]) {
      HasByte(img, it, 0x30 + imm);
      NotRead(img, begin, it, end, lazy, c, segs, word, Unsupported);
    }
    if Has(img, it, [0x50 + imm]) {
      HasByte(img, it, 0x50 + imm);
      PlainOps(img, imm, it + 1 - begin, c, segs, word);
      BindsBy(img, begin, it, end, lazy, c, segs, word, B.SetType(imm), 1, c.(ty := imm), []);
    }
    if Has(img, it, [0xd0 + imm]) {
      HasByte(img, it, 0xd0 + imm);
      NotRead(img, begin, it, end, lazy, c, segs, word, if lazy then BadOpcode else Unsupported);
    }
    if Has(img, it, [b]) && (b >= 0xe0 || (lazy && b / 16 in {6, 8, 10, 11, 12})) {
      HasByte(img, it, b);
      NotRead(img, begin, it, end, lazy, c, segs, word, BadOpcode);
    }
  }

  lemma {:induction false} PlainOps(img: bytes, imm: nibble, pos: nat, c: B.Cursor, segs: seq<uint64>, word: nat)
    ensures B.Apply(img, B.Done, pos, c, segs, word) ==
            Ok((B.Cursor(c.vmaddr, 0, 0, 0, c.sym, 0, pos % 0x1_0000_0000), []))
    ensures B.Apply(img, B.SetOrdinal(imm), pos, c, segs, word) == Ok((c.(dylib := imm), []))
    ensures B.Apply(img, B.SetType(imm), pos, c, segs, word) == Ok((c.(ty := imm), []))
  {
  }

  /** Opcodes with a number that bind nothing: 0x2_, 0x6_, 0x7_ and 0x8_; and 0x4_ with the name behind it. */
  lemma {:induction false} BindNumbers(
    img: bytes, begin: nat, it: nat, end: nat, lazy: bool, c: B.Cursor, segs: seq<uint64>, word: nat, imm: nibble, n: uint64,
    name: bytes)
    requires begin <= it != end
    ensures Has(img, it, [0x20 + imm] + Uleb(n)) ==>
      Binds(img, begin, it, end, lazy, c, segs, word, 1 + |Uleb(n)|, c.(dylib := imm), [])
    ensures Has(img, it, [0x40 + imm] + (name + [0])) && 0 !in name && it + |name| + 2 <= end < 0x1_0000_0000_0000_0000 ==>
      Binds(img, begin, it, end, lazy, c, segs, word, |name| + 2, c.(flags := imm, sym := Some(it + 1)), []) &&
      Named(img, c.(flags := imm, sym := Some(it + 1)), name)
    ensures Has(img, it, [0x60 + imm] + Uleb(n)) && !lazy ==>
      Binds(img, begin, it, end, lazy, c, segs, word, 1 + |Uleb(n)|, c.(addend := n), [])
    ensures Has(img, it, [0x70 + imm] + Uleb(n)) && imm < |segs| ==>
      Binds(img, begin, it, end, lazy, c, segs, word, 1 + |Uleb(n)|, At(c, Wrap(segs[imm] + n)), [])
    ensures Has(img, it, [0x80 + imm] + Uleb(n)) && !lazy ==>
      Binds(img, begin, it, end, lazy, c, segs, word, 1 + |Uleb(n)|, At(c, Wrap(c.vmaddr + n)), [])
  {
    hide *;
    if Has(img, it, [0x20 + imm] + Uleb(n)) {
      OneNumber(img, it, 0x20 + imm, n);
      BindNumberOps(img, it, end, lazy, imm, n);
      NumberEffects(img, imm, n, it + (1 + |Uleb(n)|) - begin, c, segs, word);
      BindsBy(img, begin, it, end, lazy, c, segs, word, B.SetOrdinal(imm), 1 + |Uleb(n)|, c.(dylib := imm), []);
    }
    if Has(img, it, [0x40 + imm] + (name + [0])) && 0 !in name && it + |name| + 2 <= end < 0x1_0000_0000_0000_0000 {
      HasParts(img, it, [0x40 + imm], name + [0]);
      HasByte(img, it, 0x40 + imm);
      B.NameReads(img, it + 1, name, end - (it + 1));
      NameOp(img, it, end, lazy, imm, |name|);
      SymbolEffect(img, imm, it + 1, it + (|name| + 2) - begin, c, segs, word, name);
      BindsBy(img, begin, it, end, lazy, c, segs, word, B.SetSymbol(imm, it + 1), |name| + 2,
              c.(flags := imm, sym := Some(it + 1)), []);
    }
    if Has(img, it, [0x60 + imm] + Uleb(n)) && !lazy {
      OneNumber(img, it, 0x60 + imm, n);
      BindNumberOps(img, it, end, lazy, imm, n);
      NumberEffects(img, imm, n, it + (1 + |Uleb(n)|) - begin, c, segs, word);
      BindsBy(img, begin, it, end, lazy, c, segs, word, B.SetAddend(n), 1 + |Uleb(n)|, c.(addend := n), []);
    }
    if Has(img, it, [0x70 + imm] + Uleb(n)) && imm < |segs| {
      OneNumber(img, it, 0x70 + imm, n);
      BindNumberOps(img, it, end, lazy, imm, n);
      NumberEffects(img, imm, n, it + (1 + |Uleb(n)|) - begin, c, segs, word);
      BindsBy(img, begin, it, end, lazy, c, segs, word, B.SetSegOff(imm, n), 1 + |Uleb(n)|, At(c, Wrap(segs[imm] + n)), []);
    }
    if Has(img, it, [0x80 + imm] + Uleb(n)) && !lazy {
      OneNumber(img, it, 0x80 + imm, n);
      BindNumberOps(img, it, end, lazy, imm, n);
      NumberEffects(img, imm, n, it + (1 + |Uleb(n)|) - begin, c, segs, word);
      BindsBy(img, begin, it, end, lazy, c, segs, word, B.AddAddr(n), 1 + |Uleb(n)|, At(c, Wrap(c.vmaddr + n)), []);
    }
  }

  lemma {:induction false} BindNumberOps(img: bytes, it: nat, end: nat, lazy: bool, imm: nibble, n: uint64)
    requires it < |img| && ReadUleb(img, it + 1) == Ok((n, it + 1 + |Uleb(n)|))
    ensures img[it] == 0x20 + imm ==> B.ReadOp(img, it, end, lazy) == Ok((B.SetOrdinal(imm), it + (1 + |Uleb(n)|)))
    ensures img[it] == 0x60 + imm && !lazy ==> B.ReadOp(img, it, end, lazy) == Ok((B.SetAddend(n), it + (1 + |Uleb(n)|)))
    ensures img[it] == 0x70 + imm ==> B.ReadOp(img, it, end, lazy) == Ok((B.SetSegOff(imm, n), it + (1 + |Uleb(n)|)))
    ensures img[it] == 0x80 + imm && !lazy ==> B.ReadOp(img, it, end, lazy) == Ok((B.AddAddr(n), it + (1 + |Uleb(n)|)))
    ensures img[it] == 0xa0 + imm && !lazy ==>
      B.ReadOp(img, it, end, lazy) == Ok((B.DoBindAddAddr(n), it + (1 + |Uleb(n)|)))
  {
    HighLow(2, imm);
    HighLow(6, imm);
    HighLow(7, imm);
    HighLow(8, imm);
    HighLow(10, imm);
    hide ReadUleb, Uleb;
  }

  lemma {:induction false} NameOp(img: bytes, it: nat, end: nat, lazy: bool, imm: nibble, len: nat)
    requires it < |img| && img[it] == 0x40 + imm && it < end < 0x1_0000_0000_0000_0000
    requires B.StrNLen(img, it + 1, end - (it + 1)) == Ok(len)
    ensures B.ReadOp(img, it, end, lazy) == Ok((B.SetSymbol(imm, it + 1), it + (len + 2)))
  {
    HighLow(4, imm);
    hide B.StrNLen;
    assert (end - (it + 1)) % TWO_64 == end - (it + 1);
  }

  lemma {:induction false} SymbolEffect(
    img: bytes, imm: nibble, at: nat, pos: nat, c: B.Cursor, segs: seq<uint64>, word: nat, name: bytes)
    requires B.CString(img, at) == Ok(name)
    ensures B.Apply(img, B.SetSymbol(imm, at), pos, c, segs, word) == Ok((c.(flags := imm, sym := Some(at)), []))
    ensures Named(img, c.(flags := imm, sym := Some(at)), name)
  {
    hide B.CString;
  }

  lemma {:induction false} NumberEffects(
    img: bytes, imm: nibble, n: uint64, pos: nat, c: B.Cursor, segs: seq<uint64>, word: nat)
    ensures B.Apply(img, B.SetOrdinal(imm), pos, c, segs, word) == Ok((c.(dylib := imm), []))
    ensures B.Apply(img, B.SetAddend(n), pos, c, segs, word) == Ok((c.(addend := n), []))
    ensures imm < |segs| ==>
      B.Apply(img, B.SetSegOff(imm, n), pos, c, segs, word) == Ok((At(c, Wrap(segs[imm] + n)), []))
    ensures B.Apply(img, B.AddAddr(n), pos, c, segs, word) == Ok((At(c, Wrap(c.vmaddr + n)), []))
  {
  }

  /** The opcodes that bind: 0x9_, and outside lazy streams 0xa_, 0xb_ and 0xc_, whose second number is the lazy index. */
  lemma {:induction false} BindDoes(
    img: bytes, begin: nat, it: nat, end: nat, lazy: bool, c: B.Cursor, segs: seq<uint64>, word: nat, imm: nibble, n: uint64,
    m: uint64, name: bytes)
    requires begin <= it != end && Named(img, c, name)
    ensures Has(img, it, [0x90 + imm]) ==>
      Binds(img, begin, it, end, lazy, c, segs, word, 1, At(c, Spaced(c.vmaddr, 1, word)),
            if c.vmaddr == 0 then [] else Bound(c, name, 1, word))
    ensures Has(img, it, [0xa0 + imm] + Uleb(n)) && !lazy ==>
      Binds(img, begin, it, end, lazy, c, segs, word, 1 + |Uleb(n)|, At(c, Wrap(c.vmaddr + word + n)),
            if c.vmaddr == 0 then [] else Bound(c, name, 1, word))
    ensures Has(img, it, [0xb0 + imm]) && !lazy ==>
      Binds(img, begin, it, end, lazy, c, segs, word, 1, At(c, Spaced(c.vmaddr, imm + 1, word)),
            if c.vmaddr == 0 then [] else Bound(c, name, 1, word))
    ensures Has(img, it, [0xc0 + imm] + Uleb(n) + Uleb(m)) && !lazy && NonZero(c, n, word) ==>
      Binds(img, begin, it, end, lazy, c, segs, word, 1 + |Uleb(n)| + |Uleb(m)|, At(c, Spaced(c.vmaddr, n, word)),
            Bound(c.(index := m % 0x1_0000_0000), name, n, word))
  {
    hide *;
    OneBound(img, c, name, word);
    var one := if c.vmaddr == 0 then [] else Bound(c, name, 1, word);
    if Has(img, it, [0x90 + imm]) {
      HasByte(img, it, 0x90 + imm);
      DoOps(img, it, end, lazy, imm);
      BindEffects(img, n, imm, it + 1 - begin, c, segs, word, one);
      BindsBy(img, begin, it, end, lazy, c, segs, word, B.DoBind, 1, At(c, Spaced(c.vmaddr, 1, word)), one);
    }
    if Has(img, it, [0xa0 + imm] + Uleb(n)) && !lazy {
      OneNumber(img, it, 0xa0 + imm, n);
      BindNumberOps(img, it, end, lazy, imm, n);
      BindEffects(img, n, imm, it + (1 + |Uleb(n)|) - begin, c, segs, word, one);
      BindsBy(img, begin, it, end, lazy, c, segs, word, B.DoBindAddAddr(n), 1 + |Uleb(n)|, At(c, Wrap(c.vmaddr + word + n)), one);
    }
    if Has(img, it, [0xb0 + imm]) && !lazy {
      HasByte(img, it, 0xb0 + imm);
      DoOps(img, it, end, lazy, imm);
      BindEffects(img, n, imm, it + 1 - begin, c, segs, word, one);
      BindsBy(img, begin, it, end, lazy, c, segs, word, B.DoBindScaled(imm), 1, At(c, Spaced(c.vmaddr, imm + 1, word)), one);
    }
    if Has(img, it, [0xc0 + imm] + Uleb(n) + Uleb(m)) && !lazy && NonZero(c, n, word) {
      TwoNumbers(img, it, 0xc0 + imm, n, m);
      TimesOp(img, it, end, lazy, imm, n, m);
      TimesEffect(img, n, m, it + (1 + |Uleb(n)| + |Uleb(m)|) - begin, c, segs, word, name);
      BindsBy(img, begin, it, end, lazy, c, segs, word, B.DoBindTimes(n, m), 1 + |Uleb(n)| + |Uleb(m)|,
              At(c, Spaced(c.vmaddr, n, word)), Bound(c.(index := m % 0x1_0000_0000), name, n, word));
    }
  }

  lemma {:induction false} DoOps(img: bytes, it: nat, end: nat, lazy: bool, imm: nibble)
    requires it < |img|
    ensures img[it] == 0x90 + imm ==> B.ReadOp(img, it, end, lazy) == Ok((B.DoBind, it + 1))
    ensures img[it] == 0xb0 + imm && !lazy ==> B.ReadOp(img, it, end, lazy) == Ok((B.DoBindScaled(imm), it + 1))
  {
    HighLow(9, imm);
    HighLow(11, imm);
  }

  lemma {:induction false} TimesOp(img: bytes, it: nat, end: nat, lazy: bool, imm: nibble, n: uint64, m: uint64)
    requires !lazy && it < |img| && img[it] == 0xc0 + imm && ReadUleb(img, it + 1) == Ok((n, it + 1 + |Uleb(n)|))
    requires ReadUleb(img, it + 1 + |Uleb(n)|) == Ok((m, it + 1 + |Uleb(n)| + |Uleb(m)|))
    ensures B.ReadOp(img, it, end, lazy) == Ok((B.DoBindTimes(n, m), it + (1 + |Uleb(n)| + |Uleb(m)|)))
  {
    HighLow(12, imm);
    hide ReadUleb, Uleb;
  }

  lemma {:induction false} BindEffects(
    img: bytes, n: uint64, imm: nibble, pos: nat, c: B.Cursor, segs: seq<uint64>, word: nat, one: seq<B.Bindee>)
    requires B.BindOne(img, c) == Ok(one)
    ensures B.Apply(img, B.DoBind, pos, c, segs, word) == Ok((At(c, Spaced(c.vmaddr, 1, word)), one))
    ensures B.Apply(img, B.DoBindAddAddr(n), pos, c, segs, word) == Ok((At(c, Wrap(c.vmaddr + word + n)), one))
    ensures B.Apply(img, B.DoBindScaled(imm), pos, c, segs, word) == Ok((At(c, Spaced(c.vmaddr, imm + 1, word)), one))
  {
    AddWraps(c.vmaddr, word, n);
    AddWraps(c.vmaddr, word, imm * word);
    assert c.vmaddr + word + imm * word == c.vmaddr + (imm + 1) * word;
    hide B.BindOne;
  }

  lemma {:induction false} TimesEffect(
    img: bytes, n: uint64, m: uint64, pos: nat, c: B.Cursor, segs: seq<uint64>, word: nat, name: bytes)
    requires Named(img, c, name) && NonZero(c, n, word)
    ensures B.Apply(img, B.DoBindTimes(n, m), pos, c, segs, word) ==
            Ok((At(c, Spaced(c.vmaddr, n, word)), Bound(c.(index := m % 0x1_0000_0000), name, n, word)))
  {
    RunBound(img, n, c.(index := m % 0x1_0000_0000), name, word);
    hide B.Run, Bound, B.CString;
  }

  // ----- run-length forms of bind -----

  function ApplyAll(img: bytes, ops: seq<B.Opcode>, pos: nat, c: B.Cursor, segs: seq<uint64>, word: nat)
    : Result<(B.Cursor, seq<B.Bindee>)>
  {
    if ops == [] then Ok((c, []))
    else
      var (c', out) :- B.Apply(img, ops[0], pos, c, segs, word);
      var (c'', rest) :- ApplyAll(img, ops[1..], pos, c', segs, word);
      Ok((c'', out + rest))
  }

  function Repeated(n: nat): seq<B.Opcode>
  {
    if n == 0 then [] else [B.DoBind] + Repeated(n - 1)
  }

  /** The same program with one binding an opcode; in a run the skip is the lazy index and not a distance. */
  function Unrolled(op: B.Opcode, word: nat): seq<B.Opcode>
  {
    match op
    case DoBindAddAddr(n) => [B.DoBind, B.AddAddr(n)]
    case DoBindScaled(scale) => [B.DoBind, B.AddAddr(scale * word % TWO_64)]
    case DoBindTimes(count, _) => Repeated(count)
    case _ => [op]
  }

  function WithIndex(op: B.Opcode, c: B.Cursor): B.Cursor
  {
    if op.DoBindTimes? then c.(index := op.skip % TWO_32) else c
  }

  lemma {:induction false} ApplyOne(img: bytes, op: B.Opcode, pos: nat, c: B.Cursor, segs: seq<uint64>, word: nat)
    ensures ApplyAll(img, [op], pos, c, segs, word) == B.Apply(img, op, pos, c, segs, word)
  {
    hide B.Apply;
    assert [op][1..] == [];
    if B.Apply(img, op, pos, c, segs, word).Ok? {
      assert B.Apply(img, op, pos, c, segs, word).value.1 + [] == B.Apply(img, op, pos, c, segs, word).value.1;
    }
  }

  lemma {:induction false} ApplyTwo(
    img: bytes, a: B.Opcode, b: B.Opcode, pos: nat, c: B.Cursor, segs: seq<uint64>, word: nat)
    ensures ApplyAll(img, [a, b], pos, c, segs, word) ==
      match B.Apply(img, a, pos, c, segs, word)
      case Err(reason) => Err(reason)
      case Ok((c', out)) =>
        match B.Apply(img, b, pos, c', segs, word)
        case Err(reason) => Err(reason)
        case Ok((c'', rest)) => Ok((c'', out + rest))
  {
    hide B.Apply;
    assert [a, b][1..] == [b];
    if B.Apply(img, a, pos, c, segs, word).Ok? {
      ApplyOne(img, b, pos, B.Apply(img, a, pos, c, segs, word).value.0, segs, word);
    }
  }

  lemma {:induction false} RepeatedRuns(img: bytes, count: nat, pos: nat, c: B.Cursor, segs: seq<uint64>, word: nat)
    ensures ApplyAll(img, Repeated(count), pos, c, segs, word) == B.Run(img, count, c, word)
    decreases count
  {
    hide B.BindOne;
    if count == 0 {
    } else {
      assert Repeated(count)[1..] == Repeated(count - 1);
      RepeatedRuns(img, count - 1, pos, B.Moved(c, word), segs, word);
    }
  }

  /** Every opcode does what its unrolled form does, from the cursor with its index and back to it. */
  lemma {:induction false} UnrolledSame(img: bytes, op: B.Opcode, pos: nat, c: B.Cursor, segs: seq<uint64>, word: nat)
    ensures B.Apply(img, op, pos, c, segs, word) ==
      match ApplyAll(img, Unrolled(op, word), pos, WithIndex(op, c), segs, word)
      case Err(reason) => Err(reason)
      case Ok((next, out)) => Ok((if op.DoBindTimes? then next.(index := c.index) else next, out))
  {
    hide ApplyAll, B.BindOne, B.Run, Repeated;
    match op
    case DoBindAddAddr(n) =>
      ApplyTwo(img, B.DoBind, B.AddAddr(n), pos, c, segs, word);
      Nothing(img, c);
    case DoBindScaled(scale) =>
      ApplyTwo(img, B.DoBind, B.AddAddr(scale * word % TWO_64), pos, c, segs, word);
      Nothing(img, c);
      AddWraps(scale * word, 0, B.Moved(c, word).vmaddr);
    case DoBindTimes(count, skip) => RepeatedRuns(img, count, pos, WithIndex(op, c), segs, word);
    case _ => ApplyOne(img, op, pos, c, segs, word);
  }

  lemma {:induction false} Nothing(img: bytes, c: B.Cursor)
    ensures B.BindOne(img, c).Ok? ==> B.BindOne(img, c).value + [] == B.BindOne(img, c).value
  {
  }

  /** A stream begins with type 0 at address 0: a first rebase is of these. */
  lemma {:induction false} RebaseBegins(segs: seq<uint64>, word: nat)
    ensures R.Interp([0x51], 0, 1, R.START, segs, word) == Ok([R.Rebasee(0, 0)])
  {
    var c := R.START;
    assert R.ReadOp([0x51], 0) == Ok((R.DoImm(1), 1));
    assert R.Run(0, word, c.(vmaddr := word % TWO_64)).1 == [];
    assert R.Run(1, word, c).1 == [R.Rebasee(0, 0)];
    assert R.Interp([0x51], 1, 1, R.Run(1, word, c).0, segs, word) == Ok([]);
  }
}
