/**
 What the ABI converter does to numbers (src/abiconv/typeconv.cc, src/abiconv/typeinfo.cc): the number a C kind stands
 for in memory on either side, and when the emitted code leaves the same number there.
 */
module ConvertNumbers {
  import opened Wrappers
  import opened Emit
  import opened RecordLayout
  import opened ConvertCode
  import opened ConvertRun
  import opened RecordConvert

  // ----- memory -----

  type Memory = Addr -> byte

  function Bytes(mem: Memory, a: Addr, n: nat): (s: bytes)
    ensures |s| == n && forall i :: 0 <= i < n ==> s[i] == mem(Plus(a, i))
  {
    seq<byte>(n, i requires 0 <= i < n => mem(Plus(a, i)))
  }

  /** The numbers `n` bytes can hold. */
  function Span(n: nat): (m: nat)
    ensures m > 0
  {
    match n
    case 1 => 0x100
    case 2 => 0x1_0000
    case 4 => 0x1_0000_0000
    case 8 => 0x1_0000_0000_0000_0000
    case _ => 1
  }

  function TwosComplement(n: nat, size: nat): int
  {
    if 2 * n >= Span(size) then n - Span(size) else n
  }

  /** What stands in the register that is stored: the bytes that were read, extended. */
  function Stored(mem: Memory, w: Word): nat
    requires w.Bits?
  {
    var n := FromLe(Bytes(mem, w.at, w.read));
    if w.ext.Sign? then TwosComplement(n, w.read) % Span(w.wide) else n
  }

  /** The `n` bytes at its destination after a write. */
  function Left(mem: Memory, m: Move, n: nat): bytes
    requires m.value.Bits? && m.width <= n
  {
    Le(m.width, Stored(mem, m.value)) + Bytes(mem, Plus(m.dst, m.width), n - m.width)
  }

  // ----- C -----

  predicate Integer(k: Kind)
  {
    k in {Bool, Char, Short, Int, Enum, Long, ULong, LongLong, Pointer, BlockPointer}
  }

  predicate SignedInC(k: Kind)
  {
    k in {Char, Short, Int, Enum, Long, LongLong}
  }

  /** The number a value of kind `k` stands for. */
  function Denotes(k: Kind, s: bytes): int
  {
    if SignedInC(k) then TwosComplement(FromLe(s), |s|) else FromLe(s)
  }

  /** It gets wider from `a` to `b`. */
  predicate GetsWider(k: Kind, a: Arch, b: Arch)
  {
    k in {Long, ULong, Pointer, BlockPointer} && a.I386? && b.X86_64?
  }

  lemma {:induction false} FromLeBound(s: bytes)
    requires |s| in {1, 2, 4, 8}
    ensures FromLe(s) < Span(|s|)
  {
    WordWidths();
    FromLeBelow(s);
  }

  lemma {:induction false} FromLeBelow(s: bytes)
    ensures FromLe(s) < Pow256(|s|)
  {
    if s == [] {
    } else {
      FromLeBelow(s[1..]);
    }
  }

  lemma {:induction false} FromLeSplit(a: bytes, b: bytes)
    ensures FromLe(a + b) == FromLe(a) + Pow256(|a|) * FromLe(b)
  {
    if a == [] {
      assert a + b == b;
    } else {
      assert (a + b)[1..] == a[1..] + b;
      FromLeSplit(a[1..], b);
    }
  }

  lemma {:induction false} Spans(n: nat)
    requires n in {1, 2, 4, 8}
    ensures Span(n) == Pow256(n) && Span(n) % 2 == 0
  {
    WordWidths();
  }

  lemma {:induction false} StoredBack(n: nat, v: int)
    requires n in {1, 2, 4, 8}
    ensures FromLe(Le(n, v)) == v % Span(n)
  {
    hide *;
    Spans(n);
    FieldHolds(n, v);
  }

  /** Signed numbers keep their value through a wider two's complement. */
  lemma {:induction false} Widens(n: nat)
    requires n < Span(4)
    ensures TwosComplement(TwosComplement(n, 4) % Span(8), 8) == TwosComplement(n, 4)
  {
  }

  lemma {:induction false} Truncates(n: nat, high: nat)
    requires n < Span(4) && high < Span(4)
    ensures (n + Span(4) * high) % Span(4) == n && n + Span(4) * high < Span(8)
  {
  }

  lemma {:induction false} Halves(mem: Memory, a: Addr)
    ensures
      var low, high := FromLe(Bytes(mem, a, 4)), FromLe(Bytes(mem, Plus(a, 4), 4));
      low < Span(4) && high < Span(4) && FromLe(Bytes(mem, a, 8)) == low + Span(4) * high
  {
    var x, y := Bytes(mem, a, 4), Bytes(mem, Plus(a, 4), 4);
    forall i | 0 <= i < 4 ensures y[i] == mem(Plus(a, i + 4)) {
      assert Plus(Plus(a, 4), i) == Plus(a, i + 4);
    }
    assert Bytes(mem, a, 8) == x + y;
    hide FromLe, Pow256, Bytes;
    Spans(4);
    FromLeSplit(x, y);
    FromLeBound(x);
    FromLeBound(y);
  }

  lemma {:induction false} Whole(m: Move, mem: Memory)
    requires m.value.Bits?
    ensures Left(mem, m, m.width) == Le(m.width, Stored(mem, m.value))
  {
    hide Le, Stored;
    assert Bytes(mem, Plus(m.dst, m.width), 0) == [];
  }

  lemma {:induction false} Sizes(k: Kind, a: Arch)
    requires Integer(k)
    ensures ScalarSize(k, a) in {1, 2, 4, 8}
    ensures ScalarSize(k, I386) == 4 && ScalarSize(k, X86_64) == 8 <==> GetsWider(k, I386, X86_64)
    ensures GetsWider(k, I386, X86_64) || ScalarSize(k, I386) == ScalarSize(k, X86_64)
  {
  }

  /** The write for a number, as the emitted code makes it. */
  ghost predicate Writes(w: Way, k: Kind, src: Addr, dst: Addr, m: Move)
  {
    forall s: Cpu, a: Mem, b: Mem :: Ready(s, a, b) && Resolve(s, a) == Some(src) && Resolve(s, b) == Some(dst) ==>
      Run(IntCode(w, k, a, b), s) == Some(s.(log := s.log + [m]))
  }

  /** One write for each kind: sign-extended on the way to x86_64 exactly where C widens a signed number. */
  function NumberMove(w: Way, k: Kind, src: Addr, dst: Addr): Move
    requires Integer(k)
  {
    var n := ScalarSize(k, I386);
    if w.Forth? && k.Long? then Move(Bits(src, 4, 8, Sign), dst, 8) else Move(Bits(src, n, n, Zero), dst, n)
  }

  lemma {:induction false} NumberWritten(w: Way, k: Kind, src: Addr, dst: Addr)
    requires Integer(k)
    ensures Writes(w, k, src, dst, NumberMove(w, k, src, dst))
  {
    assert IntMove(w, k, src, dst) == NumberMove(w, k, src, dst);
    hide Run, IntCode, IntMove, NumberMove, Ready, Resolve;
    forall s: Cpu, a: Mem, b: Mem | Ready(s, a, b) && Resolve(s, a) == Some(src) && Resolve(s, b) == Some(dst)
      ensures Run(IntCode(w, k, a, b), s) == Some(s.(log := s.log + [NumberMove(w, k, src, dst)]))
    {
      IntRuns(w, k, a, b, s);
    }
  }

  /** After the code for `k` has run, the destination stands for the number `v`. */
  ghost predicate Receives(w: Way, k: Kind, src: Addr, dst: Addr, mem: Memory, v: int)
    requires Integer(k)
  {
    Denotes(k, Left(mem, NumberMove(w, k, src, dst), ScalarSize(k, To(w)))) == v
  }

  /** The number at the source. */
  function Sent(w: Way, k: Kind, src: Addr, mem: Memory): int
  {
    Denotes(k, Bytes(mem, src, ScalarSize(k, From(w))))
  }

  lemma {:induction false} CopiedBack(mem: Memory, src: Addr, dst: Addr, n: nat)
    requires n in {1, 2, 4, 8}
    ensures
      var left := Left(mem, Move(Bits(src, n, n, Zero), dst, n), n);
      |left| == n && FromLe(left) == FromLe(Bytes(mem, src, n))
  {
    var m := Move(Bits(src, n, n, Zero), dst, n);
    var s := Bytes(mem, src, n);
    assert Stored(mem, m.value) == FromLe(s);
    hide Le, FromLe, Span, Bytes, Left, Stored;
    Whole(m, mem);
    FromLeBound(s);
    StoredBack(n, FromLe(s));
    assert FromLe(s) % Span(n) == FromLe(s);
  }

  lemma {:induction false} SameSize(w: Way, k: Kind, src: Addr, dst: Addr, mem: Memory)
    requires Integer(k) && !GetsWider(k, I386, X86_64)
    ensures Receives(w, k, src, dst, mem, Sent(w, k, src, mem))
  {
    Sizes(k, I386);
    var n := ScalarSize(k, I386);
    assert NumberMove(w, k, src, dst) == Move(Bits(src, n, n, Zero), dst, n);
    assert ScalarSize(k, To(w)) == n == ScalarSize(k, From(w));
    hide FromLe, ScalarSize, Bytes, Left, NumberMove, TwosComplement;
    CopiedBack(mem, src, dst, n);
  }

  lemma {:induction false} LongGrows(src: Addr, dst: Addr, mem: Memory)
    ensures Receives(Forth, Long, src, dst, mem, Sent(Forth, Long, src, mem))
  {
    var s := Bytes(mem, src, 4);
    var m := Move(Bits(src, 4, 8, Sign), dst, 8);
    hide Le, FromLe, Span, Bytes;
    Whole(m, mem);
    FromLeBound(s);
    Widens(FromLe(s));
    StoredBack(8, TwosComplement(FromLe(s), 4) % Span(8));
  }

  /** Memory full of ones. */
  function OnesEverywhere(): Memory
  {
    _ => 1
  }

  lemma {:induction false} FullOfOnes(src: Addr, m: Move)
    requires m == Move(Bits(src, 4, 4, Zero), m.dst, 4)
    ensures Bytes(OnesEverywhere(), src, 4) == [1, 1, 1, 1]
    ensures Left(OnesEverywhere(), m, 8) == [1, 1, 1, 1] + [1, 1, 1, 1]
  {
    var mem := OnesEverywhere();
    Ones(mem);
    hide FromLe, Le;
    assert Bytes(mem, src, 4) == [1, 1, 1, 1] && Bytes(mem, Plus(m.dst, 4), 4) == [1, 1, 1, 1];
  }

  lemma {:induction false} OnesTwice()
    ensures FromLe([1, 1, 1, 1] + [1, 1, 1, 1]) != FromLe([1, 1, 1, 1])
  {
    Ones(OnesEverywhere());
    FromLeSplit([1, 1, 1, 1], [1, 1, 1, 1]);
    Spans(4);
    hide FromLe, Pow256;
  }

  lemma {:induction false} WideUnsigned(k: Kind, src: Addr, dst: Addr)
    requires k in {ULong, Pointer, BlockPointer}
    ensures Integer(k) && !SignedInC(k) && ScalarSize(k, X86_64) == 8 && ScalarSize(k, I386) == 4
    ensures NumberMove(Forth, k, src, dst) == Move(Bits(src, 4, 4, Zero), dst, 4)
  {
  }

  /** Unsigned numbers that get wider are left with whatever stood above them. */
  lemma {:induction false} UpperHalfStays(k: Kind, src: Addr, dst: Addr)
    requires k in {ULong, Pointer, BlockPointer}
    ensures exists mem: Memory :: !Receives(Forth, k, src, dst, mem, Sent(Forth, k, src, mem))
  {
    var mem := OnesEverywhere();
    var m := Move(Bits(src, 4, 4, Zero), dst, 4);
    WideUnsigned(k, src, dst);
    FullOfOnes(src, m);
    OnesTwice();
    hide FromLe, Le, Bytes, Left, NumberMove, ScalarSize, OnesEverywhere;
    assert !Receives(Forth, k, src, dst, mem, Sent(Forth, k, src, mem));
  }

  lemma {:induction false} Ones(mem: Memory)
    requires forall a :: mem(a) == 1
    ensures FromLe([1, 1, 1, 1]) == 0x0101_0101 && Le(4, 0x0101_0101) == [1, 1, 1, 1]
  {
    assert [1, 1, 1, 1][1..] == [1, 1, 1] && [1, 1, 1][1..] == [1, 1] && [1, 1][1..] == [1] && [1][1..] == [];
    assert FromLe([1]) == 1 && FromLe([1, 1]) == 0x101 && FromLe([1, 1, 1]) == 0x01_0101;
    assert Le(1, 1) == [1] && Le(2, 0x101) == [1] + Le(1, 1) && Le(3, 0x01_0101) == [1] + Le(2, 0x101);
  }

  /**
   From i386 to x86_64 the code leaves the number it read, whatever stood at the destination, exactly for the kinds that
   are signed in C or do not get wider.
   */
  lemma {:induction false} NumberKeptIff(k: Kind, src: Addr, dst: Addr)
    requires Integer(k)
    ensures Writes(Forth, k, src, dst, NumberMove(Forth, k, src, dst))
    ensures (forall mem: Memory :: Receives(Forth, k, src, dst, mem, Sent(Forth, k, src, mem))) <==>
            SignedInC(k) || !GetsWider(k, I386, X86_64)
  {
    NumberWritten(Forth, k, src, dst);
    hide Receives, Sent, Writes, NumberMove;
    if k.Long? {
      forall mem: Memory ensures Receives(Forth, k, src, dst, mem, Sent(Forth, k, src, mem)) {
        LongGrows(src, dst, mem);
      }
    } else if GetsWider(k, I386, X86_64) {
      UpperHalfStays(k, src, dst);
    } else {
      forall mem: Memory ensures Receives(Forth, k, src, dst, mem, Sent(Forth, k, src, mem)) {
        SameSize(Forth, k, src, dst, mem);
      }
    }
  }

  /** The numbers of kind `k` that i386 has. */
  predicate Fits(k: Kind, v: int)
  {
    GetsWider(k, I386, X86_64) ==> if SignedInC(k) then -0x8000_0000 <= v < 0x8000_0000 else 0 <= v < 0x1_0000_0000
  }

  /** What a qword cut to its lower half still stands for. */
  lemma {:induction false} CutIff(low: nat, high: nat)
    requires low < Span(4) && high < Span(4)
    ensures
      var whole := low + Span(4) * high;
      && (low == whole <==> whole < 0x1_0000_0000)
      && (TwosComplement(low, 4) == TwosComplement(whole, 8) <==>
          -0x8000_0000 <= TwosComplement(whole, 8) < 0x8000_0000)
  {
  }

  lemma {:induction false} WideArrives(k: Kind, src: Addr, dst: Addr, mem: Memory)
    requires Integer(k) && GetsWider(k, I386, X86_64)
    ensures Receives(Back, k, src, dst, mem, Sent(Back, k, src, mem)) <==> Fits(k, Sent(Back, k, src, mem))
  {
    var s, t := Bytes(mem, src, 4), Bytes(mem, src, 8);
    var low, high := FromLe(s), FromLe(Bytes(mem, Plus(src, 4), 4));
    var m := Move(Bits(src, 4, 4, Zero), dst, 4);
    assert NumberMove(Back, k, src, dst) == m && ScalarSize(k, I386) == 4 && ScalarSize(k, X86_64) == 8;
    var left := Left(mem, m, 4);
    assert Receives(Back, k, src, dst, mem, Sent(Back, k, src, mem)) <==> Denotes(k, left) == Denotes(k, t);
    assert Stored(mem, m.value) == low;
    hide Receives, NumberMove, ScalarSize, Bytes, FromLe, Le, TwosComplement, Span, Stored, Left, Pow256;
    Halves(mem, src);
    Whole(m, mem);
    StoredBack(4, low);
    CutIff(low, high);
    Small(low);
    assert left == Le(4, low) && |left| == 4 && |t| == 8;
  }

  lemma {:induction false} Small(low: nat)
    requires low < Span(4)
    ensures low % Span(4) == low
  {
  }

  /** Back to i386 the number arrives exactly if i386 has it. */
  lemma {:induction false} NumberFitsIff(k: Kind, src: Addr, dst: Addr, mem: Memory)
    requires Integer(k)
    ensures Writes(Back, k, src, dst, NumberMove(Back, k, src, dst))
    ensures Receives(Back, k, src, dst, mem, Sent(Back, k, src, mem)) <==> Fits(k, Sent(Back, k, src, mem))
  {
    NumberWritten(Back, k, src, dst);
    hide Receives, Sent, Writes, NumberMove;
    if !GetsWider(k, I386, X86_64) {
      SameSize(Back, k, src, dst, mem);
    } else {
      WideArrives(k, src, dst, mem);
    }
  }

  /** A `long` on the way to x86_64: one sign-extended qword, and nothing is left to be wanted. */
  lemma {:induction false} LongArgument(full: bool, src: Mem, dst: Mem, data: int, s: Cpu)
    requires Argument(s, src, dst)
    ensures Resolve(s, src).Some? && Resolve(s, dst).Some?
    ensures
      var e := Code(Forth, Scalar(Long), src, dst, data);
      e.Some? && Run(e.value.code, s) ==
      Some(s.(log := s.log + [Move(Bits(Resolve(s, src).value, 4, 8, Sign), Resolve(s, dst).value, 8)]))
    ensures Sound(Forth, full, Scalar(Long), src.base, dst.base) && Converts(Forth, full, Scalar(Long), src, dst, data, s)
  {
    ConvertedIff(Forth, full, Scalar(Long), src, dst, data, s);
    IntRuns(Forth, Long, src, dst, s);
    hide Run, Resolve, IntCode, Converts;
  }
}
