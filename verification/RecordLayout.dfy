/**
 Record layout in the ABI converter (src/abiconv/typeconv.cc, src/abiconv/loc.cc, include/abiconv/util.hh). Sizes
 are computed by one walk over the fields and the addresses to convert by another; on i386 they align differently.
 */
module RecordLayout {
  import opened Wrappers
  import opened Arith

  datatype Arch = I386 | X86_64

  /** Unsigned kinds of one width on both architectures are laid out and converted like the signed ones. */
  datatype Kind =
    | Void | Bool | Char | Short | Int | Enum | Long | ULong | LongLong | Float | Double | LongDouble
    | Pointer | BlockPointer | FunctionProto

  /**
   A C type in canonical form. A pointer to a structure that is to be ignored is a scalar, one whose pointee is
   converted is a `PointerTo`; both lie in memory alike.
   */
  datatype CType =
    | Scalar(kind: Kind)
    | PointerTo(pointee: CType)
    | ConstantArray(elem: CType, count: nat)
    | Struct(fields: seq<CType>, packed: bool)

  // ----- sizes and alignments -----

  function WordSize(a: Arch): nat
  {
    if a.I386? then 4 else 8
  }

  /** `long double` has the size it has in the converter itself, on both architectures. */
  function ScalarSize(k: Kind, a: Arch): (n: nat)
    ensures n in {0, 1, 2, 4, 8, 16}
  {
    match k
    case Void => 0
    case Bool => 1
    case Char => 1
    case Short => 2
    case Int => 4
    case Enum => 4
    case Long => WordSize(a)
    case ULong => WordSize(a)
    case LongLong => 8
    case Float => 4
    case Double => 8
    case LongDouble => 16
    case Pointer => WordSize(a)
    case BlockPointer => WordSize(a)
    case FunctionProto => WordSize(a)
  }

  /** What i386 aligns to four bytes inside a record. */
  function Capped(align: nat, a: Arch): nat
  {
    if align == 8 && a.I386? then 4 else align
  }

  function Max(x: nat, y: nat): nat
  {
    if x >= y then x else y
  }

  function AlignOf(t: CType, a: Arch): (n: nat)
    ensures n in {1, 2, 4, 8, 16}
    decreases t, 1, 0
  {
    match t
    case Scalar(k) => Max(ScalarSize(k, a), 1)
    case PointerTo(_) => WordSize(a)
    case ConstantArray(elem, _) => AlignOf(elem, a)
    case Struct(fields, packed) => if packed then 1 else FieldsAlign(t, |fields|, a)
  }

  /** The loop of alignof_record after `n` fields. */
  function FieldsAlign(t: CType, n: nat, a: Arch): (r: nat)
    requires t.Struct? && n <= |t.fields|
    ensures r in {1, 2, 4, 8, 16} && (a.I386? ==> r != 8)
    ensures forall i :: 0 <= i < n ==> Capped(AlignOf(t.fields[i], a), a) <= r
    decreases t, 0, n
  {
    if n == 0 then 1 else Max(FieldsAlign(t, n - 1, a), Capped(AlignOf(t.fields[n - 1], a), a))
  }

  function SizeOf(t: CType, a: Arch): nat
    decreases t, 1, 0
  {
    match t
    case Scalar(k) => ScalarSize(k, a)
    case PointerTo(_) => WordSize(a)
    case ConstantArray(elem, count) => SizeOf(elem, a) * count
    case Struct(fields, packed) => if packed then 0 else AlignUp(FieldsSize(t, |fields|, a), AlignOf(t, a))
  }

  /** The loop of sizeof_struct after `n` fields. */
  function FieldsSize(t: CType, n: nat, a: Arch): nat
    requires t.Struct? && n <= |t.fields|
    decreases t, 0, n
  {
    if n == 0 then 0 else AlignUp(FieldsSize(t, n - 1, a), AlignOf(t.fields[n - 1], a)) + SizeOf(t.fields[n - 1], a)
  }

  /** Without packed records or empty arrays, as the converter demands. */
  predicate Plain(t: CType)
    decreases t
  {
    match t
    case Scalar(_) => true
    case PointerTo(pointee) => Plain(pointee)
    case ConstantArray(elem, count) => count >= 1 && Plain(elem)
    case Struct(fields, packed) => !packed && forall i :: 0 <= i < |fields| ==> Plain(fields[i])
  }

  method SizeOfStruct(t: CType, a: Arch) returns (size: nat)
    requires t.Struct?
    ensures size == SizeOf(t, a)
  {
    size := 0;
    for i := 0 to |t.fields|
      invariant t.packed ==> size == 0
      invariant !t.packed ==> size == FieldsSize(t, i, a)
    {
      if !t.packed {
        size := AlignUp(size, AlignOf(t.fields[i], a)) + SizeOf(t.fields[i], a);
      }
    }
    if !t.packed {
      size := AlignUp(size, AlignOf(t, a));
    }
  }

  method AlignOfRecord(t: CType, a: Arch) returns (align: nat)
    requires t.Struct?
    ensures align == AlignOf(t, a)
  {
    if t.packed {
      return 1;
    }
    align := 1;
    for i := 0 to |t.fields|
      invariant align == FieldsAlign(t, i, a)
    {
      var fieldAlign := AlignOf(t.fields[i], a);
      if fieldAlign == 8 && a.I386? {
        fieldAlign := 4;
      }
      align := Max(align, fieldAlign);
    }
  }

  // ----- signed rounding -----

  /** align_up on `int`: C++ division truncates, so negative numbers are rounded through their absolute value. */
  function AlignIndex(n: int, align: nat): int
    requires align > 0
  {
    if n >= 0 then (n + align - 1) / align * align else -(-n / align) * align
  }

  /** It is the least multiple not below `n`, on either side of zero. */
  lemma {:induction false} AlignIndexIsLeast(n: int, align: nat)
    requires align > 0
    ensures AlignIndex(n, align) % align == 0 && n <= AlignIndex(n, align) < n + align
    ensures forall m: int :: m % align == 0 && n <= m ==> AlignIndex(n, align) <= m
  {
    var q := if n >= 0 then (n + align - 1) / align else -(-n / align);
    var r := AlignIndex(n, align);
    assert r == q * align;
    MulIsMultiple(q, align);
    if n >= 0 {
      assert n + align - 1 == (n + align - 1) / align * align + (n + align - 1) % align;
    } else {
      assert -n == -n / align * align + -n % align;
      assert -(-n / align) * align == -(-n / align * align);
    }
    forall m: int | m % align == 0 && n <= m ensures r <= m {
      if m < r {
        var d := SameModDiff(r, m, align);
        if d <= 0 {
          MulMono(d, 0, align);
        } else {
          MulMono(1, d, align);
        }
      }
    }
  }

  // ----- the converting walk -----

  function FieldAlign(t: CType, a: Arch): (n: nat)
    ensures n in {1, 2, 4, 8, 16}
  {
    Capped(AlignOf(t, a), a)
  }

  /** The index after `n` fields of a record that starts at `start`. */
  function WalkEnd(t: CType, n: nat, a: Arch, start: int): int
    requires t.Struct? && n <= |t.fields|
    decreases n, 0
  {
    if n == 0 then start else FieldAt(t, n - 1, a, start) + SizeOf(t.fields[n - 1], a)
  }

  /** The index at which field `i` is converted. */
  function FieldAt(t: CType, i: nat, a: Arch, start: int): int
    requires t.Struct? && i < |t.fields|
    decreases i, 1
  {
    AlignIndex(WalkEnd(t, i, a, start), FieldAlign(t.fields[i], a))
  }

  lemma {:induction false} MultipleTwice(n: int, y: int, d: int, x: int)
    requires x > 0 && y > 0 && y == d * x && n % y == 0
    ensures n % x == 0
  {
    assert n == n / y * y;
    assert n / y * (d * x) == n / y * d * x;
    MulIsMultiple(n / y * d, x);
  }

  /** Alignments are powers of two: a multiple of one is a multiple of every smaller one. */
  lemma {:induction false} Divides(x: nat, y: nat, n: int)
    requires x in {1, 2, 4, 8, 16} && y in {1, 2, 4, 8, 16} && x <= y && n % y == 0
    ensures n % x == 0
  {
    var d := if x == y then 1 else if y == 2 * x then 2 else if y == 4 * x then 4 else if y == 8 * x then 8 else 16;
    assert y == d * x;
    hide *;
    MultipleTwice(n, y, d, x);
  }

  lemma {:induction false} SizeIsMultiple(t: CType, a: Arch)
    ensures SizeOf(t, a) % AlignOf(t, a) == 0
    decreases t
  {
    match t
    case Scalar(k) => ScalarMultiple(ScalarSize(k, a));
    case PointerTo(_) =>
    case ConstantArray(elem, count) =>
      SizeIsMultiple(elem, a);
      hide AlignOf, SizeOf;
      ArrayIs(elem, count, a);
      ProductMultiple(SizeOf(elem, a), count, AlignOf(elem, a));
    case Struct(fields, packed) =>
      if !packed {
        AlignUpIsLeast(FieldsSize(t, |fields|, a), AlignOf(t, a));
      }
  }

  lemma {:induction false} ScalarMultiple(n: nat)
    ensures n % Max(n, 1) == 0
  {
    if n > 0 {
      MulIsMultiple(1, n);
    }
  }

  lemma {:induction false} ArrayIs(elem: CType, count: nat, a: Arch)
    ensures SizeOf(ConstantArray(elem, count), a) == SizeOf(elem, a) * count
    ensures AlignOf(ConstantArray(elem, count), a) == AlignOf(elem, a)
  {
  }

  lemma {:induction false} ProductMultiple(s: nat, count: nat, m: nat)
    requires m > 0 && s % m == 0
    ensures (s * count) % m == 0
  {
    assert s == s / m * m;
    assert s * count == s / m * m * count;
    assert s / m * m * count == s / m * (m * count) && m * count == count * m && s / m * count * m == s / m * (count * m);
    MulIsMultiple(s / m * count, m);
  }

  /** From an aligned start the converting walk never runs ahead of the sizing walk. */
  lemma {:induction false} WalkWithinSize(t: CType, n: nat, a: Arch, start: int)
    requires t.Struct? && !t.packed && n <= |t.fields| && start % AlignOf(t, a) == 0
    ensures start <= WalkEnd(t, n, a, start) <= start + FieldsSize(t, n, a)
    decreases n
  {
    if n == 0 {
    } else {
      WalkWithinSize(t, n - 1, a, start);
      var f := t.fields[n - 1];
      var w, s := WalkEnd(t, n - 1, a, start), FieldsSize(t, n - 1, a);
      var fa, aa := FieldAlign(f, a), AlignOf(f, a);
      AlignIndexIsLeast(w, fa);
      AlignUpIsLeast(s, aa);
      Divides(fa, aa, AlignUp(s, aa));
      Divides(fa, AlignOf(t, a), start);
      ModOffset(start, AlignUp(s, aa), fa);
    }
  }

  /**
   The fields of a record are converted in order, at aligned indices, without overlap and inside the size of the
   record, on both architectures.
   */
  lemma {:induction false} FieldsFit(t: CType, a: Arch, start: int, i: nat)
    requires t.Struct? && !t.packed && i < |t.fields| && start % AlignOf(t, a) == 0
    ensures
      var at, size := FieldAt(t, i, a, start), SizeOf(t.fields[i], a);
      && at % FieldAlign(t.fields[i], a) == 0
      && start <= at && at + size <= start + SizeOf(t, a)
      && (i + 1 < |t.fields| ==> at + size <= FieldAt(t, i + 1, a, start))
  {
    WalkWithinSize(t, i, a, start);
    WalkWithinSize(t, i + 1, a, start);
    AlignIndexIsLeast(WalkEnd(t, i, a, start), FieldAlign(t.fields[i], a));
    if i + 1 < |t.fields| {
      AlignIndexIsLeast(WalkEnd(t, i + 1, a, start), FieldAlign(t.fields[i + 1], a));
    }
    FieldsSizeMonotone(t, i + 1, |t.fields|, a);
    AlignUpIsLeast(FieldsSize(t, |t.fields|, a), AlignOf(t, a));
  }

  lemma {:induction false} FieldsSizeMonotone(t: CType, m: nat, n: nat, a: Arch)
    requires t.Struct? && m <= n <= |t.fields|
    ensures FieldsSize(t, m, a) <= FieldsSize(t, n, a)
    decreases n
  {
    if m < n {
      FieldsSizeMonotone(t, m, n - 1, a);
      AlignUpIsLeast(FieldsSize(t, n - 1, a), AlignOf(t.fields[n - 1], a));
    }
  }

  // ----- every scalar inside a type -----

  /** One scalar that is moved: its address in the record. */
  datatype Leaf = Leaf(kind: Kind, at: int)

  function Shifted(ls: seq<Leaf>, delta: int): (r: seq<Leaf>)
    ensures |r| == |ls| && forall i :: 0 <= i < |ls| ==> r[i] == Leaf(ls[i].kind, ls[i].at + delta)
  {
    seq(|ls|, i requires 0 <= i < |ls| => Leaf(ls[i].kind, ls[i].at + delta))
  }

  /**
   The scalars converted in a value of type `t` at index `start`. Elements of an array are converted through a
   fresh register that points to each of them in turn; void and function types are not converted at all.
   */
  function Leaves(t: CType, a: Arch, start: int): seq<Leaf>
    decreases t, 1, 0
  {
    match t
    case Scalar(k) => if k.Void? || k.FunctionProto? then [] else [Leaf(k, start)]
    case PointerTo(_) => [Leaf(Pointer, start)]
    case ConstantArray(elem, count) => Repeated(Leaves(elem, a, 0), count, SizeOf(elem, a), start)
    case Struct(fields, _) => FieldLeaves(t, |fields|, a, start)
  }

  function Repeated(ls: seq<Leaf>, n: nat, size: nat, start: int): seq<Leaf>
  {
    if n == 0 then [] else Repeated(ls, n - 1, size, start) + Shifted(ls, start + (n - 1) * size)
  }

  function FieldLeaves(t: CType, n: nat, a: Arch, start: int): seq<Leaf>
    requires t.Struct? && n <= |t.fields|
    decreases t, 0, n
  {
    if n == 0 then []
    else FieldLeaves(t, n - 1, a, start) + Leaves(t.fields[n - 1], a, FieldAt(t, n - 1, a, start))
  }

  predicate LeafOk(l: Leaf, a: Arch, lo: int, hi: int, align: nat)
  {
    var size := ScalarSize(l.kind, a);
    && size > 0 && lo <= l.at && l.at + size <= hi
    && Capped(size, a) <= align && l.at % Capped(size, a) == 0
  }

  /** In order and disjoint inside `[lo, hi)`, each aligned, and none more strictly than `align`. */
  ghost predicate Fit(ls: seq<Leaf>, a: Arch, lo: int, hi: int, align: nat)
  {
    && (forall i :: 0 <= i < |ls| ==> LeafOk(ls[i], a, lo, hi, align))
    && (forall i, j :: 0 <= i < j < |ls| ==> ls[i].at + ScalarSize(ls[i].kind, a) <= ls[j].at)
  }

  lemma {:induction false} FitJoin(
    x: seq<Leaf>, y: seq<Leaf>, a: Arch, lo: int, mid: int, hi: int, align: nat, ax: nat, ay: nat)
    requires Fit(x, a, lo, mid, ax) && Fit(y, a, mid, hi, ay) && ax <= align && ay <= align && lo <= mid <= hi
    ensures Fit(x + y, a, lo, hi, align)
  {
    forall i, j | 0 <= i < j < |x + y| ensures (x + y)[i].at + ScalarSize((x + y)[i].kind, a) <= (x + y)[j].at {
      if i < |x| <= j {
        assert LeafOk(x[i], a, lo, mid, ax) && LeafOk(y[j - |x|], a, mid, hi, ay);
      }
    }
  }

  lemma {:induction false} FitWider(ls: seq<Leaf>, a: Arch, lo: int, hi: int, align: nat, lo': int, hi': int)
    requires Fit(ls, a, lo, hi, align) && lo' <= lo && hi <= hi'
    ensures Fit(ls, a, lo', hi', align)
  {
  }

  lemma {:induction false} FitShifted(ls: seq<Leaf>, a: Arch, hi: int, align: nat, delta: int)
    requires Fit(ls, a, 0, hi, align) && align in {1, 2, 4, 8, 16} && delta % align == 0
    ensures Fit(Shifted(ls, delta), a, delta, delta + hi, align)
  {
    forall i | 0 <= i < |ls| ensures LeafOk(Shifted(ls, delta)[i], a, delta, delta + hi, align) {
      assert LeafOk(ls[i], a, 0, hi, align);
      var m := Capped(ScalarSize(ls[i].kind, a), a);
      Divides(m, align, delta);
      ModOffset(delta, ls[i].at, m);
    }
  }

  lemma {:induction false} RepeatedFit(ls: seq<Leaf>, n: nat, size: nat, start: int, a: Arch, align: nat)
    requires Fit(ls, a, 0, size, align) && align in {1, 2, 4, 8, 16} && start % align == 0 && size % align == 0
    ensures Fit(Repeated(ls, n, size, start), a, start, start + n * size, align)
    decreases n
  {
    hide *;
    if n > 0 {
      RepeatedFit(ls, n - 1, size, start, a, align);
      MidMultiple(start, n - 1, size, align);
      OneMore(ls, n, size, start);
      RepeatedJoin(ls, Repeated(ls, n - 1, size, start), size, start, start + (n - 1) * size, a, align);
    } else {
      NoneRepeated(ls, size, start, a, align);
    }
  }

  lemma {:induction false} RepeatedJoin(
    ls: seq<Leaf>, front: seq<Leaf>, size: nat, start: int, mid: int, a: Arch, align: nat)
    requires Fit(ls, a, 0, size, align) && align in {1, 2, 4, 8, 16} && mid % align == 0 && start <= mid
    requires Fit(front, a, start, mid, align)
    ensures Fit(front + Shifted(ls, mid), a, start, mid + size, align)
  {
    hide *;
    FitShifted(ls, a, size, align, mid);
    FitJoin(front, Shifted(ls, mid), a, start, mid, mid + size, align, align, align);
  }

  lemma {:induction false} NoneRepeated(ls: seq<Leaf>, size: nat, start: int, a: Arch, align: nat)
    ensures Fit(Repeated(ls, 0, size, start), a, start, start + 0 * size, align)
  {
  }

  lemma {:induction false} OneMore(ls: seq<Leaf>, n: nat, size: nat, start: int)
    requires n > 0
    ensures Repeated(ls, n, size, start) == Repeated(ls, n - 1, size, start) + Shifted(ls, start + (n - 1) * size)
    ensures start + (n - 1) * size + size == start + n * size
  {
  }

  lemma {:induction false} MidMultiple(start: int, n: nat, size: nat, align: nat)
    requires align > 0 && start % align == 0 && size % align == 0
    ensures (start + n * size) % align == 0 && n * size >= 0
  {
    ProductMultiple(size, n, align);
    assert n * size == size * n;
    ModOffset(start, n * size, align);
  }

  /**
   Every scalar of a plain type is converted once, in order, aligned as align_field asks, without overlap and
   inside the bytes its size says, however deeply records and arrays are nested, on both architectures.
   */
  lemma {:induction false} LeavesFit(t: CType, a: Arch, start: int)
    requires Plain(t) && start % FieldAlign(t, a) == 0
    ensures Fit(Leaves(t, a, start), a, start, start + SizeOf(t, a), FieldAlign(t, a))
    decreases t, 1, 0
  {
    match t
    case Scalar(k) => hide Plain;
    case PointerTo(_) => hide Plain;
    case ConstantArray(elem, count) =>
      LeavesFit(elem, a, 0);
      ArrayFit(elem, count, a, start);
    case Struct(fields, _) =>
      StructFieldAlign(t, a);
      FieldLeavesFit(t, |fields|, a, start);
      StructFit(t, a, start);
  }

  lemma {:induction false} ArrayFit(elem: CType, count: nat, a: Arch, start: int)
    requires Fit(Leaves(elem, a, 0), a, 0, SizeOf(elem, a), FieldAlign(elem, a)) && start % FieldAlign(elem, a) == 0
    ensures
      var t := ConstantArray(elem, count);
      FieldAlign(t, a) == FieldAlign(elem, a) && Fit(Leaves(t, a, start), a, start, start + SizeOf(t, a), FieldAlign(elem, a))
  {
    SizeIsMultiple(elem, a);
    ArrayIs(elem, count, a);
    hide Leaves, Fit, Repeated, AlignOf, SizeOf;
    Divides(FieldAlign(elem, a), AlignOf(elem, a), SizeOf(elem, a));
    ArrayLeavesIs(elem, count, a, start);
    RepeatedFit(Leaves(elem, a, 0), count, SizeOf(elem, a), start, a, FieldAlign(elem, a));
    assert count * SizeOf(elem, a) == SizeOf(elem, a) * count;
  }

  lemma {:induction false} StructFit(t: CType, a: Arch, start: int)
    requires t.Struct? && !t.packed && start % AlignOf(t, a) == 0
    requires Fit(FieldLeaves(t, |t.fields|, a, start), a, start, WalkEnd(t, |t.fields|, a, start), AlignOf(t, a))
    ensures Fit(Leaves(t, a, start), a, start, start + SizeOf(t, a), AlignOf(t, a))
  {
    hide *;
    var n := |t.fields|;
    WalkWithinSize(t, n, a, start);
    AlignUpIsLeast(FieldsSize(t, n, a), AlignOf(t, a));
    StructIs(t, a, start);
    FitWider(FieldLeaves(t, n, a, start), a, start, WalkEnd(t, n, a, start), AlignOf(t, a), start, start + SizeOf(t, a));
  }

  lemma {:induction false} StructIs(t: CType, a: Arch, start: int)
    requires t.Struct? && !t.packed
    ensures Leaves(t, a, start) == FieldLeaves(t, |t.fields|, a, start)
    ensures SizeOf(t, a) == AlignUp(FieldsSize(t, |t.fields|, a), AlignOf(t, a)) >= FieldsSize(t, |t.fields|, a)
  {
  }

  lemma {:induction false} ArrayLeavesIs(elem: CType, count: nat, a: Arch, start: int)
    ensures Leaves(ConstantArray(elem, count), a, start) == Repeated(Leaves(elem, a, 0), count, SizeOf(elem, a), start)
  {
  }

  lemma {:induction false} StructFieldAlign(t: CType, a: Arch)
    requires t.Struct? && !t.packed
    ensures FieldAlign(t, a) == AlignOf(t, a)
    ensures forall i :: 0 <= i < |t.fields| ==> FieldAlign(t.fields[i], a) <= AlignOf(t, a)
  {
  }

  lemma {:induction false} NoFields(t: CType, a: Arch, start: int, align: nat)
    requires t.Struct?
    ensures Fit(FieldLeaves(t, 0, a, start), a, start, WalkEnd(t, 0, a, start), align)
  {
  }

  lemma {:induction false} PlainField(t: CType, i: nat)
    requires t.Struct? && Plain(t) && i < |t.fields|
    ensures Plain(t.fields[i])
  {
  }

  lemma {:induction false} FieldLeavesFit(t: CType, n: nat, a: Arch, start: int)
    requires t.Struct? && Plain(t) && n <= |t.fields| && start % AlignOf(t, a) == 0
    ensures Fit(FieldLeaves(t, n, a, start), a, start, WalkEnd(t, n, a, start), AlignOf(t, a))
    decreases t, 0, n
  {
    hide *;
    if n == 0 {
      NoFields(t, a, start, AlignOf(t, a));
    } else {
      PlainField(t, n - 1);
      FieldPlaced(t, n - 1, a, start);
      FieldLeavesFit(t, n - 1, a, start);
      LeavesFit(t.fields[n - 1], a, FieldAt(t, n - 1, a, start));
      JoinField(t, n - 1, a, start);
    }
  }

  lemma {:induction false} FieldPlaced(t: CType, i: nat, a: Arch, start: int)
    requires t.Struct? && Plain(t) && i < |t.fields| && start % AlignOf(t, a) == 0
    ensures start <= WalkEnd(t, i, a, start) <= FieldAt(t, i, a, start)
    ensures WalkEnd(t, i + 1, a, start) == FieldAt(t, i, a, start) + SizeOf(t.fields[i], a)
    ensures FieldAt(t, i, a, start) % FieldAlign(t.fields[i], a) == 0 && FieldAlign(t.fields[i], a) <= AlignOf(t, a)
  {
    StructFieldAlign(t, a);
    AlignIndexIsLeast(WalkEnd(t, i, a, start), FieldAlign(t.fields[i], a));
    WalkWithinSize(t, i, a, start);
    hide AlignOf, SizeOf, FieldsSize, AlignIndex, Plain;
  }

  lemma {:induction false} JoinField(t: CType, i: nat, a: Arch, start: int)
    requires t.Struct? && Plain(t) && i < |t.fields| && start % AlignOf(t, a) == 0
    requires Fit(FieldLeaves(t, i, a, start), a, start, WalkEnd(t, i, a, start), AlignOf(t, a))
    requires
      var f, at := t.fields[i], FieldAt(t, i, a, start);
      Fit(Leaves(f, a, at), a, at, at + SizeOf(f, a), FieldAlign(f, a))
    ensures Fit(FieldLeaves(t, i + 1, a, start), a, start, WalkEnd(t, i + 1, a, start), AlignOf(t, a))
  {
    hide *;
    FieldPlaced(t, i, a, start);
    FieldLeavesNext(t, i, a, start);
    var f, at := t.fields[i], FieldAt(t, i, a, start);
    FitWider(FieldLeaves(t, i, a, start), a, start, WalkEnd(t, i, a, start), AlignOf(t, a), start, at);
    FitJoin(FieldLeaves(t, i, a, start), Leaves(f, a, at), a, start, at, at + SizeOf(f, a),
            AlignOf(t, a), AlignOf(t, a), FieldAlign(f, a));
  }

  lemma {:induction false} FieldLeavesNext(t: CType, i: nat, a: Arch, start: int)
    requires t.Struct? && i < |t.fields|
    ensures FieldLeaves(t, i + 1, a, start) ==
            FieldLeaves(t, i, a, start) + Leaves(t.fields[i], a, FieldAt(t, i, a, start))
  {
    hide Leaves, FieldAt;
  }

  /** Both architectures see the same scalars in the same order. */
  lemma {:induction false} SameLeaves(t: CType, a: Arch, b: Arch, x: int, y: int)
    ensures |Leaves(t, a, x)| == |Leaves(t, b, y)|
    ensures forall i :: 0 <= i < |Leaves(t, a, x)| ==> Leaves(t, a, x)[i].kind == Leaves(t, b, y)[i].kind
    decreases t, 1, 0
  {
    match t
    case Scalar(k) =>
    case PointerTo(_) =>
    case ConstantArray(elem, count) =>
      SameLeaves(elem, a, b, 0, 0);
      hide Leaves;
      ArrayLeavesIs(elem, count, a, x);
      ArrayLeavesIs(elem, count, b, y);
      SameRepeated(Leaves(elem, a, 0), Leaves(elem, b, 0), count, SizeOf(elem, a), SizeOf(elem, b), x, y);
    case Struct(fields, _) => SameFieldLeaves(t, |fields|, a, b, x, y);
  }

  lemma {:induction false} SameRepeated(p: seq<Leaf>, q: seq<Leaf>, n: nat, s: nat, u: nat, x: int, y: int)
    requires |p| == |q| && forall i :: 0 <= i < |p| ==> p[i].kind == q[i].kind
    ensures |Repeated(p, n, s, x)| == |Repeated(q, n, u, y)|
    ensures forall i :: 0 <= i < |Repeated(p, n, s, x)| ==> Repeated(p, n, s, x)[i].kind == Repeated(q, n, u, y)[i].kind
    decreases n
  {
    if n == 0 {
    } else {
      SameRepeated(p, q, n - 1, s, u, x, y);
    }
  }

  lemma {:induction false} SameAppend(p: seq<Leaf>, q: seq<Leaf>, r: seq<Leaf>, s: seq<Leaf>)
    requires |p| == |q| && forall i :: 0 <= i < |p| ==> p[i].kind == q[i].kind
    requires |r| == |s| && forall i :: 0 <= i < |r| ==> r[i].kind == s[i].kind
    ensures |p + r| == |q + s| && forall i :: 0 <= i < |p + r| ==> (p + r)[i].kind == (q + s)[i].kind
  {
  }

  lemma {:induction false} NoFieldLeaves(t: CType, a: Arch, start: int)
    requires t.Struct?
    ensures FieldLeaves(t, 0, a, start) == []
  {
  }

  lemma {:induction false} SameFieldLeaves(t: CType, n: nat, a: Arch, b: Arch, x: int, y: int)
    requires t.Struct? && n <= |t.fields|
    ensures |FieldLeaves(t, n, a, x)| == |FieldLeaves(t, n, b, y)|
    ensures forall i :: 0 <= i < |FieldLeaves(t, n, a, x)| ==>
      FieldLeaves(t, n, a, x)[i].kind == FieldLeaves(t, n, b, y)[i].kind
    decreases t, 0, n
  {
    hide *;
    if n == 0 {
      NoFieldLeaves(t, a, x);
      NoFieldLeaves(t, b, y);
    } else {
      var f, at, to := t.fields[n - 1], FieldAt(t, n - 1, a, x), FieldAt(t, n - 1, b, y);
      SameFieldLeaves(t, n - 1, a, b, x, y);
      SameLeaves(f, a, b, at, to);
      FieldLeavesNext(t, n - 1, a, x);
      FieldLeavesNext(t, n - 1, b, y);
      SameAppend(FieldLeaves(t, n - 1, a, x), FieldLeaves(t, n - 1, b, y), Leaves(f, a, at), Leaves(f, b, to));
    }
  }

  // ----- the System V AMD64 ABI, section 3.1.2 -----

  /** `x` is the lowest multiple of `align` not below `lo`. */
  ghost predicate Lowest(x: int, lo: int, align: nat)
    requires align > 0
  {
    x % align == 0 && lo <= x && forall m: int :: m % align == 0 && lo <= m ==> x <= m
  }

  /**
   On x86_64 the converter's layout is the ABI's: a record is aligned like its strictest member, each member gets
   the lowest available offset with the alignment of its type, and the size is the lowest multiple of the alignment
   that holds them all; so the last index rounded up is exactly the size.
   */
  lemma {:induction false} SystemVLayout(t: CType, start: int)
    requires t.Struct? && !t.packed && start % AlignOf(t, X86_64) == 0
    ensures forall i :: 0 <= i < |t.fields| ==> AlignOf(t.fields[i], X86_64) <= AlignOf(t, X86_64)
    ensures AlignOf(t, X86_64) == 1 || exists i :: 0 <= i < |t.fields| && AlignOf(t.fields[i], X86_64) == AlignOf(t, X86_64)
    ensures forall i :: 0 <= i < |t.fields| ==>
      Lowest(FieldAt(t, i, X86_64, start), WalkEnd(t, i, X86_64, start), AlignOf(t.fields[i], X86_64))
    ensures Lowest(start + SizeOf(t, X86_64), WalkEnd(t, |t.fields|, X86_64, start), AlignOf(t, X86_64))
    ensures AlignIndex(WalkEnd(t, |t.fields|, X86_64, start), AlignOf(t, X86_64)) == start + SizeOf(t, X86_64)
  {
    hide *;
    SystemVAlignment(t);
    forall i | 0 <= i < |t.fields|
      ensures Lowest(FieldAt(t, i, X86_64, start), WalkEnd(t, i, X86_64, start), AlignOf(t.fields[i], X86_64))
    {
      SystemVOffset(t, i, start);
    }
    SystemVSize(t, start);
  }

  lemma {:induction false} SystemVAlignment(t: CType)
    requires t.Struct? && !t.packed
    ensures forall i :: 0 <= i < |t.fields| ==> AlignOf(t.fields[i], X86_64) <= AlignOf(t, X86_64)
    ensures AlignOf(t, X86_64) == 1 || exists i :: 0 <= i < |t.fields| && AlignOf(t.fields[i], X86_64) == AlignOf(t, X86_64)
  {
    FieldsAlignAttained(t, |t.fields|, X86_64);
    assert AlignOf(t, X86_64) == FieldsAlign(t, |t.fields|, X86_64);
    hide AlignOf, FieldsAlign;
  }

  lemma {:induction false} SystemVOffset(t: CType, i: nat, start: int)
    requires t.Struct? && i < |t.fields|
    ensures Lowest(FieldAt(t, i, X86_64, start), WalkEnd(t, i, X86_64, start), AlignOf(t.fields[i], X86_64))
  {
    hide AlignOf, SizeOf, WalkEnd, AlignIndex;
    AlignIndexIsLeast(WalkEnd(t, i, X86_64, start), FieldAlign(t.fields[i], X86_64));
  }

  lemma {:induction false} SystemVSize(t: CType, start: int)
    requires t.Struct? && !t.packed && start % AlignOf(t, X86_64) == 0
    ensures Lowest(start + SizeOf(t, X86_64), WalkEnd(t, |t.fields|, X86_64, start), AlignOf(t, X86_64))
    ensures AlignIndex(WalkEnd(t, |t.fields|, X86_64, start), AlignOf(t, X86_64)) == start + SizeOf(t, X86_64)
  {
    var n, m := |t.fields|, AlignOf(t, X86_64);
    StructIs(t, X86_64, start);
    hide AlignOf, SizeOf, WalkEnd, AlignIndex, AlignUp, FieldsSize, Leaves, FieldLeaves;
    WalkIsSize(t, n, start);
    AlignIndexShift(start, FieldsSize(t, n, X86_64), m);
    AlignIndexIsLeast(WalkEnd(t, n, X86_64, start), m);
  }

  lemma {:induction false} FieldsAlignAttained(t: CType, n: nat, a: Arch)
    requires t.Struct? && n <= |t.fields|
    ensures FieldsAlign(t, n, a) == 1 || exists i :: 0 <= i < n && Capped(AlignOf(t.fields[i], a), a) == FieldsAlign(t, n, a)
    decreases n
  {
    if n == 0 {
    } else {
      FieldsAlignAttained(t, n - 1, a);
      assert Capped(AlignOf(t.fields[n - 1], a), a) == FieldsAlign(t, n, a) || FieldsAlign(t, n - 1, a) == FieldsAlign(t, n, a);
    }
  }

  /** Rounding up commutes with moving by a multiple. */
  lemma {:induction false} AlignIndexShift(start: int, n: nat, align: nat)
    requires align > 0 && start % align == 0
    ensures AlignIndex(start + n, align) == start + AlignUp(n, align)
  {
    var x, y := AlignIndex(start + n, align), start + AlignUp(n, align);
    AlignIndexIsLeast(start + n, align);
    AlignUpIsLeast(n, align);
    ModOffset(start, AlignUp(n, align), align);
    NegMultiple(start, align);
    ModOffset(-start, x, align);
    assert (x - start) % align == 0;
    assert y <= x by { assert AlignUp(n, align) <= x - start; }
  }

  lemma {:induction false} NegMultiple(x: int, m: nat)
    requires m > 0 && x % m == 0
    ensures -x % m == 0
  {
    assert x == x / m * m;
    assert -x == -(x / m) * m;
    MulIsMultiple(-(x / m), m);
  }

  lemma {:induction false} WalkStep(t: CType, n: nat, start: int)
    requires t.Struct? && !t.packed && 0 < n <= |t.fields|
    ensures
      var f := t.fields[n - 1];
      && WalkEnd(t, n, X86_64, start) ==
         AlignIndex(WalkEnd(t, n - 1, X86_64, start), AlignOf(f, X86_64)) + SizeOf(f, X86_64)
      && FieldsSize(t, n, X86_64) == AlignUp(FieldsSize(t, n - 1, X86_64), AlignOf(f, X86_64)) + SizeOf(f, X86_64)
      && AlignOf(f, X86_64) <= AlignOf(t, X86_64)
  {
    StructFieldAlign(t, X86_64);
    hide SizeOf, AlignIndex, AlignUp;
  }

  lemma {:induction false} NoFieldWalk(t: CType, start: int)
    requires t.Struct?
    ensures WalkEnd(t, 0, X86_64, start) == start && FieldsSize(t, 0, X86_64) == 0
  {
  }

  /** On x86_64 both walks are one. */
  lemma {:induction false} WalkIsSize(t: CType, n: nat, start: int)
    requires t.Struct? && !t.packed && n <= |t.fields| && start % AlignOf(t, X86_64) == 0
    ensures WalkEnd(t, n, X86_64, start) == start + FieldsSize(t, n, X86_64)
    decreases n
  {
    hide *;
    if n == 0 {
      NoFieldWalk(t, start);
    } else {
      var f := t.fields[n - 1];
      WalkIsSize(t, n - 1, start);
      WalkStep(t, n, start);
      Divides(AlignOf(f, X86_64), AlignOf(t, X86_64), start);
      AlignIndexShift(start, FieldsSize(t, n - 1, X86_64), AlignOf(f, X86_64));
    }
  }

  // ----- i386: the walk aligns eight-byte scalars to four bytes, the sizes to eight -----

  /** The first `n` fields that are sized with eight-byte alignment stand at multiples of eight all the same. */
  ghost predicate EightsAligned(t: CType, n: nat, start: int)
    requires t.Struct? && n <= |t.fields|
  {
    forall i :: 0 <= i < n && AlignOf(t.fields[i], I386) == 8 ==> (FieldAt(t, i, I386, start) - start) % 8 == 0
  }

  predicate NoSixteens(t: CType)
    requires t.Struct?
  {
    forall i :: 0 <= i < |t.fields| ==> AlignOf(t.fields[i], I386) != 16
  }

  lemma {:induction false} AlignUpShift(w: nat, d: nat, a: nat)
    requires a > 0 && d % a == 0
    ensures AlignUp(w + d, a) == AlignUp(w, a) + d
  {
    hide *;
    var x, y, e: int := AlignUp(w + d, a), AlignUp(w, a), 0 - d;
    AlignUpIsLeast(w + d, a);
    AlignUpIsLeast(w, a);
    ModOffset(d, y, a);
    NegMultiple(d, a);
    ModOffset(e, x, a);
    assert e + x == x - d && d + y == y + d;
    assert x <= y + d;
    assert y <= x - d;
  }

  lemma {:induction false} EightIsFour(x: nat, y: nat)
    requires x % 4 == 0 && y % 8 == 0
    ensures y % 4 == 0 && (x % 8 == 0 || (x % 8 == 4 && (x + 4) % 8 == 0))
    ensures x < y ==> x + 4 <= y
  {
  }

  lemma {:induction false} AlignUpEight(s: nat)
    ensures var x := AlignUp(s, 4);
      AlignUp(s, 8) == (if x % 8 == 0 then x else x + 4)
  {
    var x, y := AlignUp(s, 4), AlignUp(s, 8);
    AlignUpIsLeast(s, 4);
    AlignUpIsLeast(s, 8);
    hide *;
    EightIsFour(x, y);
    if x % 8 == 0 {
      assert y <= x;
    } else {
      assert (x + 4) % 8 == 0;
      assert y <= x + 4;
    }
  }

  /** One field further the two walks are a multiple of four apart, and no closer than before. */
  lemma {:induction false} GapStep(w: nat, s: nat, a: nat)
    requires a in {1, 2, 4, 8} && w <= s && (s - w) % 4 == 0
    ensures var gap := AlignUp(s, a) - AlignUp(w, Capped(a, I386));
      && gap >= s - w && gap % 4 == 0
      && (gap == 0 <==> s == w && (a == 8 ==> AlignUp(w, 4) % 8 == 0))
  {
    var d := s - w;
    if a == 8 {
      AlignUpEight(s);
      AlignUpShift(w, d, 4);
    } else {
      assert d % a == 0 by { assert d % 4 == 0; }
      AlignUpShift(w, d, a);
    }
  }

  /** A field on i386: where it is converted, and how both walks go on behind it. */
  lemma {:induction false} I386Step(t: CType, i: nat, start: int)
    requires t.Struct? && !t.packed && i < |t.fields| && start % AlignOf(t, I386) == 0
    ensures start <= WalkEnd(t, i, I386, start) <= start + FieldsSize(t, i, I386)
    ensures
      var f, w := t.fields[i], WalkEnd(t, i, I386, start) - start;
      && FieldAt(t, i, I386, start) == start + AlignUp(w, FieldAlign(f, I386))
      && WalkEnd(t, i + 1, I386, start) == FieldAt(t, i, I386, start) + SizeOf(f, I386)
      && FieldsSize(t, i + 1, I386) == AlignUp(FieldsSize(t, i, I386), AlignOf(f, I386)) + SizeOf(f, I386)
      && FieldAlign(f, I386) == Capped(AlignOf(f, I386), I386)
  {
    WalkWithinSize(t, i, I386, start);
    StructFieldAlign(t, I386);
    hide SizeOf, AlignOf, AlignUp, AlignIndex;
    var a := FieldAlign(t.fields[i], I386);
    Divides(a, AlignOf(t, I386), start);
    AlignIndexShift(start, WalkEnd(t, i, I386, start) - start, a);
  }

  lemma {:induction false} I386Starts(t: CType, start: int)
    requires t.Struct?
    ensures WalkEnd(t, 0, I386, start) == start && FieldsSize(t, 0, I386) == 0 && EightsAligned(t, 0, start)
  {
  }

  lemma {:induction false} EightsNext(t: CType, n: nat, start: int)
    requires t.Struct? && n < |t.fields|
    ensures EightsAligned(t, n + 1, start) <==>
      EightsAligned(t, n, start) &&
      (AlignOf(t.fields[n], I386) == 8 ==> (FieldAt(t, n, I386, start) - start) % 8 == 0)
  {
    hide AlignOf, FieldAt;
  }

  /** How far the sizes are ahead of the converting walk after `n` fields. */
  function Gap(t: CType, n: nat, start: int): int
    requires t.Struct? && n <= |t.fields|
  {
    start + FieldsSize(t, n, I386) - WalkEnd(t, n, I386, start)
  }

  lemma {:induction false} GapIff(t: CType, n: nat, start: int)
    requires t.Struct? && !t.packed && n <= |t.fields| && start % AlignOf(t, I386) == 0 && NoSixteens(t)
    ensures Gap(t, n, start) >= 0 && Gap(t, n, start) % 4 == 0
    ensures Gap(t, n, start) == 0 <==> EightsAligned(t, n, start)
    decreases n
  {
    hide AlignOf, SizeOf, FieldsSize, WalkEnd, FieldAt, AlignUp, EightsAligned, FieldAlign;
    if n == 0 {
      I386Starts(t, start);
    } else {
      GapIff(t, n - 1, start);
      I386Step(t, n - 1, start);
      EightsNext(t, n - 1, start);
      GapStep(WalkEnd(t, n - 1, I386, start) - start, FieldsSize(t, n - 1, I386), AlignOf(t.fields[n - 1], I386));
    }
  }

  /** With members aligned to sixteen bytes, aligned eights still keep the walks together. */
  lemma {:induction false} NoGap(t: CType, n: nat, start: int)
    requires t.Struct? && !t.packed && n <= |t.fields| && start % AlignOf(t, I386) == 0
    requires EightsAligned(t, n, start)
    ensures Gap(t, n, start) == 0
    decreases n
  {
    hide AlignOf, SizeOf, FieldsSize, WalkEnd, FieldAt, AlignUp, EightsAligned, FieldAlign;
    if n == 0 {
      I386Starts(t, start);
    } else {
      EightsNext(t, n - 1, start);
      NoGap(t, n - 1, start);
      I386Step(t, n - 1, start);
      var a := AlignOf(t.fields[n - 1], I386);
      if a == 8 {
        GapStep(WalkEnd(t, n - 1, I386, start) - start, FieldsSize(t, n - 1, I386), a);
      }
    }
  }

  lemma {:induction false} SmallRecord(t: CType, n: nat)
    requires t.Struct? && n <= |t.fields| && NoSixteens(t)
    ensures FieldsAlign(t, n, I386) in {1, 2, 4}
  {
    hide AlignOf;
    if n == 0 {
    } else {
      SmallRecord(t, n - 1);
    }
  }

  lemma {:induction false} I386SizeIs(t: CType)
    requires t.Struct? && !t.packed
    ensures SizeOf(t, I386) == AlignUp(FieldsSize(t, |t.fields|, I386), AlignOf(t, I386))
    ensures AlignOf(t, I386) == FieldsAlign(t, |t.fields|, I386)
  {
  }

  /**
   On i386 both walks give a record the same length exactly when no member sized with eight-byte alignment is
   converted at an odd multiple of four.
   */
  lemma {:induction false} I386SizeIsWalkIff(t: CType, start: int)
    requires t.Struct? && !t.packed && start % AlignOf(t, I386) == 0 && NoSixteens(t)
    ensures AlignIndex(WalkEnd(t, |t.fields|, I386, start), AlignOf(t, I386)) == start + SizeOf(t, I386) <==>
            EightsAligned(t, |t.fields|, start)
  {
    hide *;
    var n, m := |t.fields|, AlignOf(t, I386);
    I386SizeIs(t);
    SmallRecord(t, n);
    GapIff(t, n, start);
    WalkWithinSize(t, n, I386, start);
    GapIs(t, n, start);
    var w := WalkEnd(t, n, I386, start) - start;
    AlignIndexShift(start, w, m);
    Divides(m, 4, Gap(t, n, start));
    AlignUpShift(w, Gap(t, n, start), m);
  }

  lemma {:induction false} GapIs(t: CType, n: nat, start: int)
    requires t.Struct? && n <= |t.fields|
    ensures FieldsSize(t, n, I386) == WalkEnd(t, n, I386, start) - start + Gap(t, n, start)
  {
    hide FieldsSize, WalkEnd;
  }

  /** The same, one way, for members of any alignment. */
  lemma {:induction false} I386SizeIsWalk(t: CType, start: int)
    requires t.Struct? && !t.packed && start % AlignOf(t, I386) == 0 && EightsAligned(t, |t.fields|, start)
    ensures AlignIndex(WalkEnd(t, |t.fields|, I386, start), AlignOf(t, I386)) == start + SizeOf(t, I386)
  {
    hide *;
    var n := |t.fields|;
    I386SizeIs(t);
    NoGap(t, n, start);
    GapIs(t, n, start);
    WalkWithinSize(t, n, I386, start);
    AlignIndexShift(start, WalkEnd(t, n, I386, start) - start, AlignOf(t, I386));
  }

  lemma {:induction false} SixteenWalk(t: CType)
    requires t == Struct([Scalar(Int), Scalar(LongLong), Scalar(LongDouble)], false)
    ensures FieldAt(t, 1, I386, 0) == 4 && WalkEnd(t, 3, I386, 0) == 32 && AlignOf(t.fields[1], I386) == 8
  {
    hide EightsAligned;
    assert FieldAt(t, 0, I386, 0) == 0 && SizeOf(Scalar(Int), I386) == 4;
    assert WalkEnd(t, 1, I386, 0) == 4;
    assert FieldAt(t, 1, I386, 0) == 4 && WalkEnd(t, 2, I386, 0) == 12;
    assert FieldAt(t, 2, I386, 0) == 16;
  }

  lemma {:induction false} SixteenSizes(t: CType)
    requires t == Struct([Scalar(Int), Scalar(LongLong), Scalar(LongDouble)], false)
    ensures AlignOf(t, I386) == 16 && SizeOf(t, I386) == 32
  {
    hide EightsAligned, WalkEnd, FieldAt;
    assert FieldsAlign(t, 1, I386) == 4 && FieldsAlign(t, 2, I386) == 4 && FieldsAlign(t, 3, I386) == 16;
    assert FieldsSize(t, 0, I386) == 0 && FieldsSize(t, 1, I386) == 4;
    assert AlignUp(4, 8) == 8 && FieldsSize(t, 2, I386) == 16;
    assert AlignUp(16, 16) == 16 && FieldsSize(t, 3, I386) == 32;
    assert AlignUp(32, 16) == 32;
  }

  lemma {:induction false} AlignedSixteen()
    ensures AlignIndex(32, 16) == 32
  {
  }

  /** A `long double` can swallow the difference: `struct { int; long long; long double; }` is 32 bytes both ways. */
  lemma {:induction false} SixteenSwallows()
    ensures
      var t := Struct([Scalar(Int), Scalar(LongLong), Scalar(LongDouble)], false);
      && !EightsAligned(t, 3, 0) && AlignOf(t, I386) == 16
      && AlignIndex(WalkEnd(t, 3, I386, 0), 16) == SizeOf(t, I386) == 32
  {
    var t := Struct([Scalar(Int), Scalar(LongLong), Scalar(LongDouble)], false);
    SixteenWalk(t);
    SixteenSizes(t);
    hide *;
    AlignedSixteen();
    EightsNext(t, 1, 0);
    EightsNext(t, 2, 0);
  }

  /** `struct { int; long long; }` is walked in 12 bytes and sized at 16. */
  lemma {:induction false} I386SizeExceedsWalk()
    ensures
      var t := Struct([Scalar(Int), Scalar(LongLong)], false);
      WalkEnd(t, 2, I386, 0) == 12 && AlignOf(t, I386) == 4 && SizeOf(t, I386) == 16
  {
    var t := Struct([Scalar(Int), Scalar(LongLong)], false);
    assert FieldAt(t, 0, I386, 0) == 0 && WalkEnd(t, 1, I386, 0) == 4;
    assert FieldAt(t, 1, I386, 0) == 4;
    assert FieldsAlign(t, 1, I386) == 4 && FieldsAlign(t, 2, I386) == 4;
    assert FieldsSize(t, 0, I386) == 0 && FieldsSize(t, 1, I386) == 4;
    assert AlignUp(4, 8) == 8 && FieldsSize(t, 2, I386) == 16;
  }

  // ----- the sizes of the two ABIs -----

  /** Sizes as the i386 and x86_64 supplements of the System V ABI and the Darwin calling conventions list them. */
  lemma {:induction false} AbiSizes(k: Kind)
    ensures ScalarSize(k, I386) == 0 <==> k.Void?
    ensures ScalarSize(k, I386) == 1 <==> k in {Bool, Char}
    ensures ScalarSize(k, I386) == 2 <==> k.Short?
    ensures ScalarSize(k, I386) == 4 <==>
            k in {Int, Enum, Float} || k in {Long, ULong, Pointer, BlockPointer, FunctionProto}
    ensures ScalarSize(k, I386) == 8 <==> k in {LongLong, Double}
    ensures ScalarSize(k, I386) == 16 <==> k.LongDouble?
    ensures ScalarSize(k, X86_64) == 0 <==> k.Void?
    ensures ScalarSize(k, X86_64) == 1 <==> k in {Bool, Char}
    ensures ScalarSize(k, X86_64) == 2 <==> k.Short?
    ensures ScalarSize(k, X86_64) == 4 <==> k in {Int, Enum, Float}
    ensures ScalarSize(k, X86_64) == 8 <==>
            k in {LongLong, Double} || k in {Long, ULong, Pointer, BlockPointer, FunctionProto}
    ensures ScalarSize(k, X86_64) == 16 <==> k.LongDouble?
  {
  }

  /** An element more is its size more, and an array is aligned like its elements; pointers have the size of a word. */
  lemma {:induction false} ArraySizes(elem: CType, n: nat, a: Arch)
    ensures SizeOf(ConstantArray(elem, 0), a) == 0
    ensures SizeOf(ConstantArray(elem, n + 1), a) == SizeOf(ConstantArray(elem, n), a) + SizeOf(elem, a)
    ensures AlignOf(ConstantArray(elem, n), a) == AlignOf(elem, a)
    ensures SizeOf(PointerTo(elem), a) == AlignOf(PointerTo(elem), a) == if a.I386? then 4 else 8
  {
    var s := SizeOf(elem, a);
    assert s * (n + 1) == s * n + s && s * 0 == 0;
  }
}
