/**
 The ABI converter (src/abiconv/typeconv.cc): when the writes of the emitted code are the ones a caller wants. Every
 element of an array has its own place on either side, every new pointer its own room, and an operand is where it was
 meant to be. The code falls short of this in several ways; `Sound` says exactly when it does not.
 */
module RecordConvert {
  import opened Wrappers
  import opened Arith
  import opened RecordLayout
  import opened ConvertCode
  import opened ConvertRun

  // ----- what is wanted -----

  /** With `full` an unsigned number that gets wider is to be written whole, otherwise its low half is enough. */
  function WantedScalar(w: Way, full: bool, k: Kind, src: Addr, dst: Addr): Move
  {
    var from, to := ScalarSize(k, From(w)), ScalarSize(k, To(w));
    if from >= to then Move(Bits(src, to, to, Zero), dst, to)
    else if Signed(k) then Move(Bits(src, from, to, Sign), dst, to)
    else if full then Move(Bits(src, from, to, Zero), dst, to)
    else Move(Bits(src, from, from, Zero), dst, from)
  }

  function WantedPointer(w: Way, full: bool, dst: Place, slot: Place): seq<Move>
  {
    if w.Forth? then [Move(Address(slot.at), dst.at, if full then 8 else 4)] else []
  }

  /**
   On the way to x86_64 every element has room of its own for what its pointers lead to. On the way back that room is
   where the first conversion took it.
   */
  function ElementData(w: Way, elem: CType, i: nat, data: Place): Place
  {
    if w.Forth? then Elsewhere(data, AfterElements(elem, i, data.index)) else data
  }

  function Wanted(w: Way, full: bool, t: CType, src: Place, dst: Place, data: Place): seq<Move>
    decreases t, 1, 0
  {
    match t
    case Scalar(k) => if Converted(k) then [WantedScalar(w, full, k, src.at, dst.at)] else []
    case PointerTo(pointee) =>
      var slot := Slot(pointee, data);
      WantedPointer(w, full, dst, slot) +
      Wanted(w, full, pointee, PointeeSrc(w, src, slot), PointeeDst(w, dst, slot), Behind(pointee, slot))
    case ConstantArray(elem, count) => ElementsWanted(w, full, elem, count, src, dst, data)
    case Struct(fields, _) => FieldsWanted(w, full, t, |fields|, src, dst, data)
  }

  function ElementWanted(w: Way, full: bool, elem: CType, i: nat, src: Place, dst: Place, data: Place): seq<Move>
    decreases elem, 2
  {
    Wanted(w, full, elem, Element(RSI, src.at, i, SizeOf(elem, From(w))), Element(RDI, dst.at, i, SizeOf(elem, To(w))),
           ElementData(w, elem, i, data))
  }

  function ElementsWanted(w: Way, full: bool, elem: CType, n: nat, src: Place, dst: Place, data: Place): seq<Move>
    decreases elem, 3, n
  {
    if n == 0 then []
    else ElementsWanted(w, full, elem, n - 1, src, dst, data) + ElementWanted(w, full, elem, n - 1, src, dst, data)
  }

  function FieldsWanted(w: Way, full: bool, t: CType, n: nat, src: Place, dst: Place, data: Place): seq<Move>
    requires t.Struct? && n <= |t.fields|
    decreases t, 0, n
  {
    if n == 0 then []
    else
      FieldsWanted(w, full, t, n - 1, src, dst, data) +
      Wanted(w, full, t.fields[n - 1], Field(t, n - 1, From(w), src), Field(t, n - 1, To(w), dst),
             FieldData(w.Forth?, t, n - 1, data))
  }

  // ----- when the code does it -----

  /** A value of the type takes room for what its pointers lead to. */
  predicate Allocates(t: CType)
    decreases t
  {
    match t
    case Scalar(_) => false
    case PointerTo(pointee) => SizeOf(pointee, X86_64) > 0
    case ConstantArray(elem, _) => Allocates(elem)
    case Struct(fields, _) => exists i :: 0 <= i < |fields| && Allocates(fields[i])
  }

  /** On the way back something is written for a value of the type. */
  predicate Yields(t: CType)
    decreases t
  {
    match t
    case Scalar(k) => Converted(k)
    case PointerTo(pointee) => Yields(pointee)
    case ConstantArray(elem, _) => Yields(elem)
    case Struct(fields, _) => exists i :: 0 <= i < |fields| && Yields(fields[i])
  }

  /** The passes after the first are right: they share the data cursor, and step by fixed sizes. */
  predicate PassesFit(w: Way, elem: CType)
  {
    if w.Forth? then !Allocates(elem) else !Yields(elem) || SizeOf(elem, I386) == SizeOf(elem, X86_64)
  }

  predicate Widened(w: Way, k: Kind)
  {
    ScalarSize(k, From(w)) < ScalarSize(k, To(w)) && !Signed(k)
  }

  /**
   The code for a type does what is wanted: no real is moved relative to `rsp`, no new pointer is stored relative to
   `r11`, no array of two or more elements takes room for pointees or is converted back to another stride, and, if
   unsigned numbers are to be written whole, none gets wider.
   */
  predicate Sound(w: Way, full: bool, t: CType, src: Reg, dst: Reg)
    decreases t
  {
    match t
    case Scalar(k) =>
      !Converted(k) || (if Real(k) then !src.RSP? && !dst.RSP? else !full || !Widened(w, k))
    case PointerTo(pointee) => (w.Back? || (!full && !dst.R11?)) && Sound(w, full, pointee, R12, R11)
    case ConstantArray(elem, count) => Sound(w, full, elem, RSI, RDI) && (count <= 1 || PassesFit(w, elem))
    case Struct(fields, _) => forall i :: 0 <= i < |fields| ==> Sound(w, full, fields[i], src, dst)
  }

  // ----- lengths -----

  lemma {:induction false} SameLength(
    w: Way, full: bool, t: CType, src: Place, dst: Place, data: Place, src': Place, dst': Place, data': Place)
    ensures |Moved(w, t, src, dst, data)| == |Wanted(w, full, t, src', dst', data')|
    decreases t, 1, 0
  {
    match t
    case Scalar(_) =>
    case PointerTo(pointee) =>
      var slot, slot' := Slot(pointee, data), Slot(pointee, data');
      SameLength(w, full, pointee, PointeeSrc(w, src, slot), PointeeDst(w, dst, slot), Behind(pointee, slot),
                 PointeeSrc(w, src', slot'), PointeeDst(w, dst', slot'), Behind(pointee, slot'));
      hide Slot, Behind, PointeeSrc, PointeeDst;
    case ConstantArray(elem, count) => SameElementsLength(w, full, elem, count, src, dst, data, src', dst', data');
    case Struct(fields, _) => SameFieldsLength(w, full, t, |fields|, src, dst, data, src', dst', data');
  }

  lemma {:induction false} SameElementsLength(
    w: Way, full: bool, elem: CType, n: nat, src: Place, dst: Place, data: Place, src': Place, dst': Place, data': Place)
    ensures |ElementsMoved(w, elem, n, src, dst, data)| == |ElementsWanted(w, full, elem, n, src', dst', data')|
    decreases elem, 2, n
  {
    hide *;
    NextElements(w, full, elem, n, src, dst, data);
    NextElements(w, full, elem, n, src', dst', data');
    if n == 0 {
    } else {
      SameElementsLength(w, full, elem, n - 1, src, dst, data, src', dst', data');
      SameLength(w, full, elem,
                 Element(RSI, src.at, n - 1, SizeOf(elem, I386)), Element(RDI, dst.at, n - 1, SizeOf(elem, X86_64)), data,
                 Element(RSI, src'.at, n - 1, SizeOf(elem, From(w))), Element(RDI, dst'.at, n - 1, SizeOf(elem, To(w))),
                 ElementData(w, elem, n - 1, data'));
    }
  }

  function ElementMoved(w: Way, elem: CType, i: nat, src: Place, dst: Place, data: Place): seq<Move>
  {
    Moved(w, elem, Element(RSI, src.at, i, SizeOf(elem, I386)), Element(RDI, dst.at, i, SizeOf(elem, X86_64)), data)
  }

  lemma {:induction false} NextElements(w: Way, full: bool, elem: CType, n: nat, src: Place, dst: Place, data: Place)
    ensures n == 0 ==> ElementsMoved(w, elem, n, src, dst, data) == [] && ElementsWanted(w, full, elem, n, src, dst, data) == []
    ensures n > 0 ==>
      && ElementsMoved(w, elem, n, src, dst, data) ==
         ElementsMoved(w, elem, n - 1, src, dst, data) + ElementMoved(w, elem, n - 1, src, dst, data)
      && ElementsWanted(w, full, elem, n, src, dst, data) ==
         ElementsWanted(w, full, elem, n - 1, src, dst, data) + ElementWanted(w, full, elem, n - 1, src, dst, data)
      && ElementMoved(w, elem, n - 1, src, dst, data) ==
         Moved(w, elem, Element(RSI, src.at, n - 1, SizeOf(elem, I386)), Element(RDI, dst.at, n - 1, SizeOf(elem, X86_64)), data)
      && ElementWanted(w, full, elem, n - 1, src, dst, data) ==
         Wanted(w, full, elem, Element(RSI, src.at, n - 1, SizeOf(elem, From(w))),
                Element(RDI, dst.at, n - 1, SizeOf(elem, To(w))), ElementData(w, elem, n - 1, data))
  {
    hide Moved, Wanted, SizeOf, ElementData, Element;
  }

  function FieldMoved(w: Way, t: CType, i: nat, src: Place, dst: Place, data: Place): seq<Move>
    requires t.Struct? && i < |t.fields|
  {
    Moved(w, t.fields[i], Field(t, i, From(w), src), Field(t, i, To(w), dst), FieldData(false, t, i, data))
  }

  function FieldWanted(w: Way, full: bool, t: CType, i: nat, src: Place, dst: Place, data: Place): seq<Move>
    requires t.Struct? && i < |t.fields|
  {
    Wanted(w, full, t.fields[i], Field(t, i, From(w), src), Field(t, i, To(w), dst), FieldData(w.Forth?, t, i, data))
  }

  lemma {:induction false} NextFields(w: Way, full: bool, t: CType, n: nat, src: Place, dst: Place, data: Place)
    requires t.Struct? && n <= |t.fields|
    ensures n == 0 ==> FieldsMoved(w, t, n, src, dst, data) == [] && FieldsWanted(w, full, t, n, src, dst, data) == []
    ensures n > 0 ==>
      && FieldsMoved(w, t, n, src, dst, data) == FieldsMoved(w, t, n - 1, src, dst, data) + FieldMoved(w, t, n - 1, src, dst, data)
      && FieldsWanted(w, full, t, n, src, dst, data) ==
         FieldsWanted(w, full, t, n - 1, src, dst, data) + FieldWanted(w, full, t, n - 1, src, dst, data)
      && FieldMoved(w, t, n - 1, src, dst, data) ==
         Moved(w, t.fields[n - 1], Field(t, n - 1, From(w), src), Field(t, n - 1, To(w), dst), FieldData(false, t, n - 1, data))
      && FieldWanted(w, full, t, n - 1, src, dst, data) ==
         Wanted(w, full, t.fields[n - 1], Field(t, n - 1, From(w), src), Field(t, n - 1, To(w), dst),
                FieldData(w.Forth?, t, n - 1, data))
  {
    hide Moved, Wanted, Field, FieldData;
  }

  lemma {:induction false} SameFieldsLength(
    w: Way, full: bool, t: CType, n: nat, src: Place, dst: Place, data: Place, src': Place, dst': Place, data': Place)
    requires t.Struct? && n <= |t.fields|
    ensures |FieldsMoved(w, t, n, src, dst, data)| == |FieldsWanted(w, full, t, n, src', dst', data')|
    decreases t, 0, n
  {
    hide *;
    NextFields(w, full, t, n, src, dst, data);
    NextFields(w, full, t, n, src', dst', data');
    if n == 0 {
    } else {
      SameFieldsLength(w, full, t, n - 1, src, dst, data, src', dst', data');
      SameLength(w, full, t.fields[n - 1],
                 Field(t, n - 1, From(w), src), Field(t, n - 1, To(w), dst), FieldData(false, t, n - 1, data),
                 Field(t, n - 1, From(w), src'), Field(t, n - 1, To(w), dst'), FieldData(w.Forth?, t, n - 1, data'));
    }
  }

  lemma {:induction false} SplitEqual(a: seq<Move>, b: seq<Move>, c: seq<Move>, d: seq<Move>)
    requires |a| == |c| || |b| == |d|
    ensures a + b == c + d <==> a == c && b == d
  {
    if a + b == c + d {
      assert |a| == |c| by { assert |a + b| == |c + d|; }
      assert a == (a + b)[..|a|] == (c + d)[..|c|] == c;
      assert b == (a + b)[|a|..] == (c + d)[|c|..] == d;
    }
  }

  /** What is wanted is as long wherever the operands are. */
  lemma {:induction false} WantedLength(
    w: Way, full: bool, t: CType, src: Place, dst: Place, data: Place, src': Place, dst': Place, data': Place)
    ensures |Wanted(w, full, t, src, dst, data)| == |Wanted(w, full, t, src', dst', data')|
  {
    hide *;
    SameLength(w, full, t, src, dst, data, src, dst, data);
    SameLength(w, full, t, src, dst, data, src', dst', data');
  }

  lemma {:induction false} FieldsLength(
    w: Way, full: bool, t: CType, n: nat, src: Place, dst: Place, data: Place, src': Place, dst': Place, data': Place)
    requires t.Struct? && n <= |t.fields|
    ensures |FieldsWanted(w, full, t, n, src, dst, data)| == |FieldsWanted(w, full, t, n, src', dst', data')|
  {
    hide *;
    SameFieldsLength(w, full, t, n, src, dst, data, src, dst, data);
    SameFieldsLength(w, full, t, n, src, dst, data, src', dst', data');
  }

  // ----- the data cursor -----

  lemma {:induction false} SlotFollows(pointee: CType, data: int)
    ensures data <= SlotIndex(pointee, data)
    ensures AlignOf(pointee, X86_64) == 1 ==> SlotIndex(pointee, data) == data
  {
    AlignIndexIsLeast(data, AlignOf(pointee, X86_64));
    hide AlignOf;
    if AlignOf(pointee, X86_64) == 1 {
      assert data % 1 == 0;
    }
  }

  lemma {:induction false} AfterGrows(each: bool, t: CType, data: int)
    ensures data <= After(each, t, data)
    decreases t, 1, 0
  {
    match t
    case Scalar(_) =>
    case PointerTo(pointee) =>
      SlotFollows(pointee, data);
      AfterGrows(each, pointee, SlotIndex(pointee, data) + SizeOf(pointee, X86_64));
    case ConstantArray(elem, count) =>
      if each {
        AfterElementsGrows(elem, count, data);
      } else {
        AfterGrows(false, elem, data);
      }
    case Struct(fields, _) => AfterFieldsGrows(each, t, |fields|, data);
  }

  lemma {:induction false} AfterElementsGrows(elem: CType, n: nat, data: int)
    ensures data <= AfterElements(elem, n, data)
    ensures n > 0 ==> After(true, elem, data) <= AfterElements(elem, n, data)
    decreases elem, 2, n
  {
    if n == 0 {
    } else {
      AfterElementsGrows(elem, n - 1, data);
      AfterGrows(true, elem, AfterElements(elem, n - 1, data));
      hide After;
    }
  }

  lemma {:induction false} AfterFieldsGrows(each: bool, t: CType, n: nat, data: int)
    requires t.Struct? && n <= |t.fields|
    ensures data <= AfterFields(each, t, n, data)
    decreases t, 0, n
  {
    if n == 0 {
    } else {
      AfterFieldsGrows(each, t, n - 1, data);
      AfterGrows(each, t.fields[n - 1], AfterFields(each, t, n - 1, data));
      hide After;
    }
  }

  lemma {:induction false} FieldInside(t: CType, i: nat)
    requires t.Struct? && Plain(t) && i < |t.fields|
    ensures Plain(t.fields[i]) && SizeOf(t.fields[i], X86_64) <= SizeOf(t, X86_64)
  {
    hide *;
    PlainField(t, i);
    PlainStruct(t);
    ZeroMultiple(AlignOf(t, X86_64));
    FieldsFit(t, X86_64, 0, i);
  }

  lemma {:induction false} PlainStruct(t: CType)
    requires t.Struct? && Plain(t)
    ensures !t.packed && AlignOf(t, X86_64) > 0
  {
  }

  lemma {:induction false} ZeroMultiple(m: nat)
    requires m > 0
    ensures 0 % m == 0
  {
  }

  /** What has no size has no pointers and no alignment. */
  lemma {:induction false} ZeroSize(t: CType)
    requires Plain(t) && SizeOf(t, X86_64) == 0
    ensures !Allocates(t) && AlignOf(t, X86_64) == 1
    decreases t, 1, 0
  {
    match t
    case Scalar(_) =>
    case PointerTo(_) =>
    case ConstantArray(elem, count) =>
      assert SizeOf(elem, X86_64) == 0 by {
        if SizeOf(elem, X86_64) > 0 {
          MulMono(1, count, SizeOf(elem, X86_64));
        }
      }
      ZeroSize(elem);
    case Struct(fields, _) =>
      forall i | 0 <= i < |fields| ensures !Allocates(fields[i]) && AlignOf(fields[i], X86_64) == 1 {
        FieldInside(t, i);
        ZeroSize(fields[i]);
      }
      NoAlign(t, |fields|);
  }

  lemma {:induction false} NoAlign(t: CType, n: nat)
    requires t.Struct? && n <= |t.fields| && forall i :: 0 <= i < |t.fields| ==> AlignOf(t.fields[i], X86_64) == 1
    ensures FieldsAlign(t, n, X86_64) == 1
  {
    hide AlignOf;
    if n == 0 {
    } else {
      NoAlign(t, n - 1);
    }
  }

  lemma {:induction false} NoRoom(each: bool, t: CType, data: int)
    requires Plain(t) && !Allocates(t)
    ensures After(each, t, data) == data
    decreases t, 1, 0
  {
    match t
    case Scalar(_) =>
    case PointerTo(pointee) =>
      ZeroSize(pointee);
      SlotFollows(pointee, data);
      NoRoom(each, pointee, data);
    case ConstantArray(elem, count) =>
      if each {
        NoRoomElements(elem, count, data);
      } else {
        NoRoom(false, elem, data);
      }
    case Struct(fields, _) => NoRoomFields(each, t, |fields|, data);
  }

  lemma {:induction false} NoRoomElements(elem: CType, n: nat, data: int)
    requires Plain(elem) && !Allocates(elem)
    ensures AfterElements(elem, n, data) == data
    decreases elem, 2, n
  {
    hide Plain, Allocates, After;
    if n == 0 {
    } else {
      NoRoomElements(elem, n - 1, data);
      NoRoom(true, elem, data);
    }
  }

  lemma {:induction false} NoRoomFields(each: bool, t: CType, n: nat, data: int)
    requires t.Struct? && Plain(t) && n <= |t.fields| && !Allocates(t)
    ensures AfterFields(each, t, n, data) == data
    decreases t, 0, n
  {
    if n == 0 {
    } else {
      NoRoomFields(each, t, n - 1, data);
      assert Plain(t.fields[n - 1]) && !Allocates(t.fields[n - 1]);
      hide Plain, Allocates, After;
      NoRoom(each, t.fields[n - 1], data);
    }
  }

  /** Where the code is sound the cursor it has is the one it should have. */
  lemma {:induction false} SoundData(full: bool, t: CType, src: Reg, dst: Reg, data: int)
    requires Plain(t) && Sound(Forth, full, t, src, dst)
    ensures After(true, t, data) == After(false, t, data)
    decreases t, 1, 0
  {
    match t
    case Scalar(_) =>
    case PointerTo(pointee) =>
      SoundData(full, pointee, R12, R11, SlotIndex(pointee, data) + SizeOf(pointee, X86_64));
    case ConstantArray(elem, count) =>
      SoundData(full, elem, RSI, RDI, data);
      hide Plain, Sound;
      if count > 1 {
        NoRoomElements(elem, count, data);
        NoRoom(false, elem, data);
      } else {
        OneElement(elem, data);
      }
    case Struct(fields, _) => SoundFieldsData(full, t, |fields|, src, dst, data);
  }

  lemma {:induction false} OneElement(elem: CType, data: int)
    ensures AfterElements(elem, 0, data) == data && AfterElements(elem, 1, data) == After(true, elem, data)
  {
    assert AfterElements(elem, 0, data) == data;
    hide After;
  }

  lemma {:induction false} SoundFieldsData(full: bool, t: CType, n: nat, src: Reg, dst: Reg, data: int)
    requires t.Struct? && Plain(t) && n <= |t.fields| && forall i :: 0 <= i < n ==> Sound(Forth, full, t.fields[i], src, dst)
    ensures AfterFields(true, t, n, data) == AfterFields(false, t, n, data)
    decreases t, 0, n
  {
    if n == 0 {
    } else {
      SoundFieldsData(full, t, n - 1, src, dst, data);
      PlainField(t, n - 1);
      hide Plain, Sound, After;
      SoundData(full, t.fields[n - 1], src, dst, AfterFields(true, t, n - 1, data));
    }
  }

  // ----- writes that cannot be the same -----

  lemma {:induction false} WantedPointerIs(w: Way, full: bool, pointee: CType, src: Place, dst: Place, data: Place)
    ensures
      var slot := Slot(pointee, data);
      Wanted(w, full, PointerTo(pointee), src, dst, data) ==
      WantedPointer(w, full, dst, slot) +
      Wanted(w, full, pointee, PointeeSrc(w, src, slot), PointeeDst(w, dst, slot), Behind(pointee, slot))
  {
    hide Slot, Behind, PointeeSrc, PointeeDst, WantedPointer;
  }

  lemma {:induction false} ArrayWantedIs(w: Way, full: bool, elem: CType, n: nat, src: Place, dst: Place, data: Place)
    ensures Wanted(w, full, ConstantArray(elem, n), src, dst, data) == ElementsWanted(w, full, elem, n, src, dst, data)
    ensures Moved(w, ConstantArray(elem, n), src, dst, data) == ElementsMoved(w, elem, n, src, dst, data)
  {
    hide ElementsWanted, ElementsMoved;
  }

  lemma {:induction false} StructWantedIs(w: Way, full: bool, t: CType, src: Place, dst: Place, data: Place)
    requires t.Struct?
    ensures Wanted(w, full, t, src, dst, data) == FieldsWanted(w, full, t, |t.fields|, src, dst, data)
    ensures Moved(w, t, src, dst, data) == FieldsMoved(w, t, |t.fields|, src, dst, data)
  {
    hide FieldsWanted, FieldsMoved;
  }

  lemma {:induction false} FirstElement(w: Way, full: bool, elem: CType, n: nat, src: Place, dst: Place, data: Place)
    requires n >= 1
    ensures ElementWanted(w, full, elem, 0, src, dst, data) <= ElementsWanted(w, full, elem, n, src, dst, data)
    decreases n
  {
    hide *;
    NextElements(w, full, elem, n, src, dst, data);
    if n == 1 {
      NextElements(w, full, elem, 0, src, dst, data);
      assert [] + ElementWanted(w, full, elem, 0, src, dst, data) == ElementWanted(w, full, elem, 0, src, dst, data);
    } else {
      FirstElement(w, full, elem, n - 1, src, dst, data);
    }
  }

  lemma {:induction false} FirstElementIs(w: Way, full: bool, elem: CType, src: Place, dst: Place, data: Place)
    ensures ElementWanted(w, full, elem, 0, src, dst, data) ==
            Wanted(w, full, elem, Place(RSI, 0, src.at), Place(RDI, 0, dst.at), data)
  {
    hide Wanted, SizeOf;
    assert AfterElements(elem, 0, data.index) == data.index;
    assert Plus(src.at, 0) == src.at && Plus(dst.at, 0) == dst.at;
    assert Elsewhere(data, data.index) == data;
  }

  lemma {:induction false} OtherElements(
    w: Way, full: bool, elem: CType, n: nat, src: Place, dst: Place, data: Place, src': Place, dst': Place, data': Place)
    requires n >= 1
    requires Wanted(w, full, elem, Place(RSI, 0, src.at), Place(RDI, 0, dst.at), data) !=
             Wanted(w, full, elem, Place(RSI, 0, src'.at), Place(RDI, 0, dst'.at), data')
    ensures Wanted(w, full, ConstantArray(elem, n), src, dst, data) !=
            Wanted(w, full, ConstantArray(elem, n), src', dst', data')
  {
    hide *;
    ArrayWantedIs(w, full, elem, n, src, dst, data);
    ArrayWantedIs(w, full, elem, n, src', dst', data');
    FirstElement(w, full, elem, n, src, dst, data);
    FirstElement(w, full, elem, n, src', dst', data');
    FirstElementIs(w, full, elem, src, dst, data);
    FirstElementIs(w, full, elem, src', dst', data');
    WantedLength(w, full, elem, Place(RSI, 0, src.at), Place(RDI, 0, dst.at), data,
                 Place(RSI, 0, src'.at), Place(RDI, 0, dst'.at), data');
  }

  /** With the cursor behind what a value took, its pointers are new ones. */
  lemma {:induction false} NewSlots(full: bool, t: CType, src: Place, dst: Place, src': Place, dst': Place, data: Place, x: int)
    requires Plain(t) && Allocates(t) && After(true, t, data.index) <= x
    ensures Wanted(Forth, full, t, src, dst, data) != Wanted(Forth, full, t, src', dst', Elsewhere(data, x))
    decreases t, 1, 0
  {
    match t
    case Scalar(_) =>
    case PointerTo(pointee) =>
      var data' := Elsewhere(data, x);
      var slot, slot' := Slot(pointee, data), Slot(pointee, data');
      AfterGrows(true, pointee, SlotIndex(pointee, data.index) + SizeOf(pointee, X86_64));
      SlotFollows(pointee, x);
      hide Plain, After, SizeOf, SlotIndex, Wanted;
      assert slot.at != slot'.at;
      WantedPointerIs(Forth, full, pointee, src, dst, data);
      WantedPointerIs(Forth, full, pointee, src', dst', data');
      assert Wanted(Forth, full, t, src, dst, data)[0] != Wanted(Forth, full, t, src', dst', data')[0];
    case ConstantArray(elem, count) =>
      AfterElementsGrows(elem, count, data.index);
      NewSlots(full, elem, Place(RSI, 0, src.at), Place(RDI, 0, dst.at), Place(RSI, 0, src'.at), Place(RDI, 0, dst'.at), data, x);
      hide *;
      OtherElements(Forth, full, elem, count, src, dst, data, src', dst', Elsewhere(data, x));
    case Struct(fields, _) => NewFieldSlots(full, t, |fields|, src, dst, src', dst', data, x);
  }

  lemma {:induction false} NewFieldSlots(
    full: bool, t: CType, n: nat, src: Place, dst: Place, src': Place, dst': Place, data: Place, x: int)
    requires t.Struct? && Plain(t) && n <= |t.fields| && AfterFields(true, t, n, data.index) <= x
    requires exists i :: 0 <= i < n && Allocates(t.fields[i])
    ensures FieldsWanted(Forth, full, t, n, src, dst, data) != FieldsWanted(Forth, full, t, n, src', dst', Elsewhere(data, x))
    decreases t, 0, n
  {
    hide *;
    var data' := Elsewhere(data, x);
    var i :| 0 <= i < n && Allocates(t.fields[i]);
    NextFields(Forth, full, t, n, src, dst, data);
    NextFields(Forth, full, t, n, src', dst', data');
    LastField(t, n, data, x);
    FieldsLength(Forth, full, t, n - 1, src, dst, data, src', dst', data');
    SplitEqual(FieldsWanted(Forth, full, t, n - 1, src, dst, data), FieldWanted(Forth, full, t, n - 1, src, dst, data),
               FieldsWanted(Forth, full, t, n - 1, src', dst', data'), FieldWanted(Forth, full, t, n - 1, src', dst', data'));
    if i == n - 1 {
      PlainField(t, i);
      NewSlots(full, t.fields[i], Field(t, i, I386, src), Field(t, i, X86_64, dst), Field(t, i, I386, src'),
               Field(t, i, X86_64, dst'), FieldData(true, t, i, data), AfterFields(true, t, i, x));
    } else {
      NewFieldSlots(full, t, n - 1, src, dst, src', dst', data, x);
    }
  }

  lemma {:induction false} LastField(t: CType, n: nat, data: Place, x: int)
    requires t.Struct? && 0 < n <= |t.fields| && AfterFields(true, t, n, data.index) <= x
    ensures AfterFields(true, t, n - 1, data.index) <= x
    ensures After(true, t.fields[n - 1], FieldData(true, t, n - 1, data).index) <= AfterFields(true, t, n - 1, x)
    ensures FieldData(true, t, n - 1, Elsewhere(data, x)) ==
            Elsewhere(FieldData(true, t, n - 1, data), AfterFields(true, t, n - 1, x))
    ensures From(Forth) == I386 && To(Forth) == X86_64
  {
    AfterGrows(true, t.fields[n - 1], AfterFields(true, t, n - 1, data.index));
    AfterFieldsGrows(true, t, n - 1, x);
    hide After;
  }

  /** On the way back, what is written depends on where it goes to. */
  lemma {:induction false} BackReaches(
    full: bool, t: CType, src: Place, dst: Place, data: Place, src': Place, dst': Place, data': Place)
    requires Plain(t) && Yields(t) && dst.index == dst'.index && dst.at != dst'.at
    ensures Wanted(Back, full, t, src, dst, data) != Wanted(Back, full, t, src', dst', data')
    decreases t, 1, 0
  {
    match t
    case Scalar(_) =>
    case PointerTo(pointee) =>
      var slot, slot' := Slot(pointee, data), Slot(pointee, data');
      BackReaches(full, pointee, PointeeSrc(Back, src, slot), PointeeDst(Back, dst, slot), Behind(pointee, slot),
                  PointeeSrc(Back, src', slot'), PointeeDst(Back, dst', slot'), Behind(pointee, slot'));
      hide *;
      BackPointer(full, pointee, src, dst, data);
      BackPointer(full, pointee, src', dst', data');
    case ConstantArray(elem, count) =>
      BackReaches(full, elem, Place(RSI, 0, src.at), Place(RDI, 0, dst.at), data, Place(RSI, 0, src'.at), Place(RDI, 0, dst'.at), data');
      hide *;
      OtherElements(Back, full, elem, count, src, dst, data, src', dst', data');
    case Struct(fields, _) => BackFields(full, t, |fields|, src, dst, data, src', dst', data');
  }

  lemma {:induction false} BackPointer(full: bool, pointee: CType, src: Place, dst: Place, data: Place)
    ensures
      var slot := Slot(pointee, data);
      Wanted(Back, full, PointerTo(pointee), src, dst, data) ==
      Wanted(Back, full, pointee, PointeeSrc(Back, src, slot), PointeeDst(Back, dst, slot), Behind(pointee, slot))
  {
    hide Slot, Behind, PointeeSrc, PointeeDst;
    var slot := Slot(pointee, data);
    var inner := Wanted(Back, full, pointee, PointeeSrc(Back, src, slot), PointeeDst(Back, dst, slot), Behind(pointee, slot));
    assert [] + inner == inner;
  }

  lemma {:induction false} FieldApart(t: CType, i: nat, a: Arch, p: Place, q: Place)
    requires t.Struct? && i < |t.fields| && p.index == q.index && p.at != q.at
    ensures Field(t, i, a, p).index == Field(t, i, a, q).index && Field(t, i, a, p).at != Field(t, i, a, q).at
  {
    hide FieldAt;
  }

  lemma {:induction false} BackFields(
    full: bool, t: CType, n: nat, src: Place, dst: Place, data: Place, src': Place, dst': Place, data': Place)
    requires t.Struct? && Plain(t) && n <= |t.fields| && dst.index == dst'.index && dst.at != dst'.at
    requires exists i :: 0 <= i < n && Yields(t.fields[i])
    ensures FieldsWanted(Back, full, t, n, src, dst, data) != FieldsWanted(Back, full, t, n, src', dst', data')
    decreases t, 0, n
  {
    hide *;
    var i :| 0 <= i < n && Yields(t.fields[i]);
    NextFields(Back, full, t, n, src, dst, data);
    NextFields(Back, full, t, n, src', dst', data');
    FieldsLength(Back, full, t, n - 1, src, dst, data, src', dst', data');
    SplitEqual(FieldsWanted(Back, full, t, n - 1, src, dst, data), FieldWanted(Back, full, t, n - 1, src, dst, data),
               FieldsWanted(Back, full, t, n - 1, src', dst', data'), FieldWanted(Back, full, t, n - 1, src', dst', data'));
    if i == n - 1 {
      PlainField(t, i);
      FieldApart(t, i, To(Back), dst, dst');
      BackReaches(full, t.fields[i], Field(t, i, From(Back), src), Field(t, i, To(Back), dst), FieldData(Back.Forth?, t, i, data),
                  Field(t, i, From(Back), src'), Field(t, i, To(Back), dst'), FieldData(Back.Forth?, t, i, data'));
    } else {
      BackFields(full, t, n - 1, src, dst, data, src', dst', data');
    }
  }

  lemma {:induction false} NothingBack(full: bool, t: CType, src: Place, dst: Place, data: Place)
    requires !Yields(t)
    ensures Wanted(Back, full, t, src, dst, data) == []
    decreases t, 1, 0
  {
    match t
    case Scalar(_) =>
    case PointerTo(pointee) =>
      var slot := Slot(pointee, data);
      NothingBack(full, pointee, PointeeSrc(Back, src, slot), PointeeDst(Back, dst, slot), Behind(pointee, slot));
    case ConstantArray(elem, count) => NothingInElements(full, elem, count, src, dst, data);
    case Struct(fields, _) => NothingInFields(full, t, |fields|, src, dst, data);
  }

  lemma {:induction false} NothingInElements(full: bool, elem: CType, n: nat, src: Place, dst: Place, data: Place)
    requires !Yields(elem)
    ensures ElementsWanted(Back, full, elem, n, src, dst, data) == []
    decreases elem, 2, n
  {
    hide *;
    NextElements(Back, full, elem, n, src, dst, data);
    if n == 0 {
    } else {
      NothingInElements(full, elem, n - 1, src, dst, data);
      NothingBack(full, elem, Element(RSI, src.at, n - 1, SizeOf(elem, From(Back))),
                  Element(RDI, dst.at, n - 1, SizeOf(elem, To(Back))), ElementData(Back, elem, n - 1, data));
    }
  }

  lemma {:induction false} NothingInFields(full: bool, t: CType, n: nat, src: Place, dst: Place, data: Place)
    requires t.Struct? && n <= |t.fields| && forall i :: 0 <= i < n ==> !Yields(t.fields[i])
    ensures FieldsWanted(Back, full, t, n, src, dst, data) == []
    decreases t, 0, n
  {
    hide *;
    NextFields(Back, full, t, n, src, dst, data);
    if n == 0 {
    } else {
      NothingInFields(full, t, n - 1, src, dst, data);
      NothingBack(full, t.fields[n - 1], Field(t, n - 1, From(Back), src), Field(t, n - 1, To(Back), dst),
                  FieldData(Back.Forth?, t, n - 1, data));
    }
  }

  // ----- the code does what is wanted exactly when it is sound -----

  /** An operand relative to `r11` lies before the data cursor: its base is the last pointee that got room. */
  predicate Clear(w: Way, dst: Place, data: Place, size: nat)
  {
    w.Forth? && dst.base.R11? && size > 0 ==> dst.at.root != data.at.root || dst.at.off - dst.index < data.at.off
  }

  lemma {:induction false} ScalarIff(w: Way, full: bool, k: Kind, src: Place, dst: Place, data: Place)
    ensures Moved(w, Scalar(k), src, dst, data) == Wanted(w, full, Scalar(k), src, dst, data) <==>
            Sound(w, full, Scalar(k), src.base, dst.base)
  {
    if Converted(k) && Real(k) {
      assert ScalarSize(k, From(w)) == ScalarSize(k, To(w)) == ScalarSize(k, X86_64);
      hide ScalarSize;
    }
  }

  lemma {:induction false} PointerIff(w: Way, full: bool, pointee: CType, src: Place, dst: Place, data: Place)
    requires Clear(w, dst, data, 8)
    requires
      var slot := Slot(pointee, data);
      var s, d, next := PointeeSrc(w, src, slot), PointeeDst(w, dst, slot), Behind(pointee, slot);
      Moved(w, pointee, s, d, next) == Wanted(w, full, pointee, s, d, next) <==> Sound(w, full, pointee, R12, R11)
    ensures Moved(w, PointerTo(pointee), src, dst, data) == Wanted(w, full, PointerTo(pointee), src, dst, data) <==>
            Sound(w, full, PointerTo(pointee), src.base, dst.base)
  {
    var slot := Slot(pointee, data);
    var s, d, next := PointeeSrc(w, src, slot), PointeeDst(w, dst, slot), Behind(pointee, slot);
    SlotFollows(pointee, data.index);
    PointerMoved(w, pointee, src, dst, data);
    WantedPointerIs(w, full, pointee, src, dst, data);
    assert Sound(w, full, PointerTo(pointee), src.base, dst.base) <==>
           (w.Forth? ==> !full && !dst.base.R11?) && Sound(w, full, pointee, R12, R11);
    hide Moved, Wanted, Sound, SlotIndex, SizeOf;
    assert PointerMoves(w, dst, slot) == WantedPointer(w, full, dst, slot) <==> (w.Forth? ==> !full && !dst.base.R11?) by {
      if w.Forth? {
        assert PointerMoves(w, dst, slot)[0] == WantedPointer(w, full, dst, slot)[0] <==> !full && !dst.base.R11?;
      }
    }
    SplitEqual(PointerMoves(w, dst, slot), Moved(w, pointee, s, d, next),
               WantedPointer(w, full, dst, slot), Wanted(w, full, pointee, s, d, next));
  }

  /** An array is converted as wanted exactly when every element is. */
  lemma {:induction false} ElementsIff(w: Way, full: bool, elem: CType, n: nat, src: Place, dst: Place, data: Place)
    ensures ElementsMoved(w, elem, n, src, dst, data) == ElementsWanted(w, full, elem, n, src, dst, data) <==>
            forall i :: 0 <= i < n ==> ElementMoved(w, elem, i, src, dst, data) == ElementWanted(w, full, elem, i, src, dst, data)
    decreases n
  {
    hide *;
    NextElements(w, full, elem, n, src, dst, data);
    if n == 0 {
    } else {
      ElementsIff(w, full, elem, n - 1, src, dst, data);
      SameElementsLength(w, full, elem, n - 1, src, dst, data, src, dst, data);
      SplitEqual(ElementsMoved(w, elem, n - 1, src, dst, data), ElementMoved(w, elem, n - 1, src, dst, data),
                 ElementsWanted(w, full, elem, n - 1, src, dst, data), ElementWanted(w, full, elem, n - 1, src, dst, data));
    }
  }

  /** What is wanted of the element that the registers point to in pass `i`. */
  function PassWanted(w: Way, full: bool, elem: CType, i: nat, src: Place, dst: Place, data: Place): seq<Move>
  {
    Wanted(w, full, elem, Element(RSI, src.at, i, SizeOf(elem, I386)), Element(RDI, dst.at, i, SizeOf(elem, X86_64)), data)
  }

  lemma {:induction false} PassIs(w: Way, full: bool, elem: CType, src: Place, dst: Place, data: Place)
    ensures PassWanted(w, full, elem, 0, src, dst, data) == ElementWanted(w, full, elem, 0, src, dst, data)
  {
    hide Wanted, SizeOf;
    FirstElementIs(w, full, elem, src, dst, data);
    assert Plus(src.at, 0) == src.at && Plus(dst.at, 0) == dst.at;
  }

  lemma {:induction false} FitPasses(w: Way, full: bool, elem: CType, i: nat, src: Place, dst: Place, data: Place)
    requires Plain(elem) && PassesFit(w, elem)
    ensures PassWanted(w, full, elem, i, src, dst, data) == ElementWanted(w, full, elem, i, src, dst, data)
  {
    hide Wanted, SizeOf, Plain, Yields, Allocates;
    if w.Forth? {
      NoRoomElements(elem, i, data.index);
      assert Elsewhere(data, data.index) == data;
    } else if !Yields(elem) {
      NothingBack(full, elem, Element(RSI, src.at, i, SizeOf(elem, I386)), Element(RDI, dst.at, i, SizeOf(elem, X86_64)), data);
      NothingBack(full, elem, Element(RSI, src.at, i, SizeOf(elem, From(w))), Element(RDI, dst.at, i, SizeOf(elem, To(w))),
                  ElementData(w, elem, i, data));
    }
  }

  lemma {:induction false} SecondPass(w: Way, full: bool, elem: CType, src: Place, dst: Place, data: Place)
    requires Plain(elem) && !PassesFit(w, elem)
    ensures PassWanted(w, full, elem, 1, src, dst, data) != ElementWanted(w, full, elem, 1, src, dst, data)
  {
    var x, y := Element(RSI, src.at, 1, SizeOf(elem, I386)), Element(RDI, dst.at, 1, SizeOf(elem, X86_64));
    var x', y' := Element(RSI, src.at, 1, SizeOf(elem, From(w))), Element(RDI, dst.at, 1, SizeOf(elem, To(w)));
    hide Wanted, SizeOf, Plain, Yields, Allocates, After;
    if w.Forth? {
      OneElement(elem, data.index);
      NewSlots(full, elem, x, y, x, y, data, After(true, elem, data.index));
    } else {
      BackReaches(full, elem, x, y, data, x', y', data);
    }
  }

  lemma {:induction false} ArrayIff(w: Way, full: bool, elem: CType, n: nat, src: Place, dst: Place, data: Place)
    requires Plain(elem) && n >= 1
    requires forall i :: 0 <= i < n ==>
      (ElementMoved(w, elem, i, src, dst, data) == PassWanted(w, full, elem, i, src, dst, data) <==> Sound(w, full, elem, RSI, RDI))
    ensures ElementsMoved(w, elem, n, src, dst, data) == ElementsWanted(w, full, elem, n, src, dst, data) <==>
            Sound(w, full, elem, RSI, RDI) && (n <= 1 || PassesFit(w, elem))
  {
    hide *;
    ElementsIff(w, full, elem, n, src, dst, data);
    PassIs(w, full, elem, src, dst, data);
    if PassesFit(w, elem) {
      forall i | 0 <= i < n
        ensures PassWanted(w, full, elem, i, src, dst, data) == ElementWanted(w, full, elem, i, src, dst, data)
      {
        FitPasses(w, full, elem, i, src, dst, data);
      }
    } else {
      SecondPass(w, full, elem, src, dst, data);
    }
    assert ElementMoved(w, elem, 0, src, dst, data) == PassWanted(w, full, elem, 0, src, dst, data) <==> Sound(w, full, elem, RSI, RDI);
    if n > 1 {
      assert ElementMoved(w, elem, 1, src, dst, data) == PassWanted(w, full, elem, 1, src, dst, data) <==> Sound(w, full, elem, RSI, RDI);
    }
  }

  lemma {:induction false} ArraySoundIs(w: Way, full: bool, elem: CType, n: nat, src: Reg, dst: Reg)
    ensures Sound(w, full, ConstantArray(elem, n), src, dst) <==>
            Sound(w, full, elem, RSI, RDI) && (n <= 1 || PassesFit(w, elem))
  {
    hide PassesFit;
  }

  lemma {:induction false} ElementIff(w: Way, full: bool, elem: CType, i: nat, src: Place, dst: Place, data: Place)
    requires Plain(elem)
    ensures ElementMoved(w, elem, i, src, dst, data) == PassWanted(w, full, elem, i, src, dst, data) <==>
            Sound(w, full, elem, RSI, RDI)
    decreases elem, 2
  {
    hide *;
    var x, y := Element(RSI, src.at, i, SizeOf(elem, I386)), Element(RDI, dst.at, i, SizeOf(elem, X86_64));
    ClearElement(w, full, elem, i, src, dst, data);
    MovedIff(w, full, elem, x, y, data);
  }

  lemma {:induction false} ClearElement(w: Way, full: bool, elem: CType, i: nat, src: Place, dst: Place, data: Place)
    ensures var y := Element(RDI, dst.at, i, SizeOf(elem, X86_64)); Clear(w, y, data, SizeOf(elem, X86_64)) && y.base == RDI
    ensures Element(RSI, src.at, i, SizeOf(elem, I386)).base == RSI
    ensures ElementMoved(w, elem, i, src, dst, data) ==
      Moved(w, elem, Element(RSI, src.at, i, SizeOf(elem, I386)), Element(RDI, dst.at, i, SizeOf(elem, X86_64)), data)
    ensures PassWanted(w, full, elem, i, src, dst, data) ==
      Wanted(w, full, elem, Element(RSI, src.at, i, SizeOf(elem, I386)), Element(RDI, dst.at, i, SizeOf(elem, X86_64)), data)
  {
    hide Moved, Wanted, SizeOf;
  }

  lemma {:induction false} ClearPointee(w: Way, pointee: CType, src: Place, dst: Place, data: Place)
    ensures
      var slot := Slot(pointee, data);
      var y, next := PointeeDst(w, dst, slot), Behind(pointee, slot);
      Clear(w, y, next, SizeOf(pointee, X86_64)) && y.base == R11 && PointeeSrc(w, src, slot).base == R12
  {
    hide SizeOf, SlotIndex;
  }

  lemma {:induction false} ClearField(w: Way, each: bool, t: CType, i: nat, dst: Place, data: Place)
    requires t.Struct? && Plain(t) && i < |t.fields| && Clear(w, dst, data, SizeOf(t, X86_64))
    ensures Clear(w, Field(t, i, To(w), dst), FieldData(each, t, i, data), SizeOf(t.fields[i], X86_64))
    ensures Field(t, i, To(w), dst).base == dst.base
  {
    FieldInside(t, i);
    AfterFieldsGrows(each, t, i, data.index);
    hide SizeOf, FieldAt, AfterFields, Plain;
  }

  lemma {:induction false} PlainParts(t: CType)
    requires Plain(t)
    ensures t.PointerTo? ==> Plain(t.pointee) && SizeOf(t, X86_64) == 8
    ensures t.ConstantArray? ==> t.count >= 1 && Plain(t.elem)
  {
  }

  lemma {:induction false} FieldSound(w: Way, full: bool, t: CType, i: nat, src: Reg, dst: Reg)
    requires t.Struct? && i < |t.fields| && Sound(w, full, t, src, dst)
    ensures Sound(w, full, t.fields[i], src, dst)
  {
  }

  lemma {:induction false} FieldsSound(w: Way, full: bool, t: CType, src: Reg, dst: Reg)
    requires t.Struct? && forall i :: 0 <= i < |t.fields| ==> Sound(w, full, t.fields[i], src, dst)
    ensures Sound(w, full, t, src, dst)
  {
  }

  lemma {:induction false} StructSoundIs(w: Way, full: bool, t: CType, src: Reg, dst: Reg)
    requires t.Struct?
    ensures Sound(w, full, t, src, dst) <==> forall i :: 0 <= i < |t.fields| ==> Sound(w, full, t.fields[i], src, dst)
  {
    hide *;
    if Sound(w, full, t, src, dst) {
      forall i | 0 <= i < |t.fields| ensures Sound(w, full, t.fields[i], src, dst) {
        FieldSound(w, full, t, i, src, dst);
      }
    } else if forall i :: 0 <= i < |t.fields| ==> Sound(w, full, t.fields[i], src, dst) {
      FieldsSound(w, full, t, src, dst);
    }
  }

  /** The writes of the code are the wanted ones, in their order, exactly when it is sound. */
  lemma {:induction false} MovedIff(w: Way, full: bool, t: CType, src: Place, dst: Place, data: Place)
    requires Plain(t) && Clear(w, dst, data, SizeOf(t, X86_64))
    ensures Moved(w, t, src, dst, data) == Wanted(w, full, t, src, dst, data) <==> Sound(w, full, t, src.base, dst.base)
    decreases t, 1, 0
  {
    hide *;
    PlainParts(t);
    match t
    case Scalar(k) => ScalarIff(w, full, k, src, dst, data);
    case PointerTo(pointee) =>
      var slot := Slot(pointee, data);
      ClearPointee(w, pointee, src, dst, data);
      MovedIff(w, full, pointee, PointeeSrc(w, src, slot), PointeeDst(w, dst, slot), Behind(pointee, slot));
      PointerIff(w, full, pointee, src, dst, data);
    case ConstantArray(elem, count) =>
      forall i | 0 <= i < count
        ensures ElementMoved(w, elem, i, src, dst, data) == PassWanted(w, full, elem, i, src, dst, data) <==>
                Sound(w, full, elem, RSI, RDI)
      {
        ElementIff(w, full, elem, i, src, dst, data);
      }
      ArrayIff(w, full, elem, count, src, dst, data);
      ArrayWantedIs(w, full, elem, count, src, dst, data);
      ArraySoundIs(w, full, elem, count, src.base, dst.base);
    case Struct(fields, _) =>
      FieldsIff(w, full, t, |fields|, src, dst, data);
      StructWantedIs(w, full, t, src, dst, data);
      StructSoundIs(w, full, t, src.base, dst.base);
  }

  lemma {:induction false} FieldsIff(w: Way, full: bool, t: CType, n: nat, src: Place, dst: Place, data: Place)
    requires t.Struct? && Plain(t) && n <= |t.fields| && Clear(w, dst, data, SizeOf(t, X86_64))
    ensures FieldsMoved(w, t, n, src, dst, data) == FieldsWanted(w, full, t, n, src, dst, data) <==>
            forall i :: 0 <= i < n ==> Sound(w, full, t.fields[i], src.base, dst.base)
    decreases t, 0, n
  {
    hide *;
    NextFields(w, full, t, n, src, dst, data);
    if n == 0 {
    } else {
      FieldsIff(w, full, t, n - 1, src, dst, data);
      SameFieldsLength(w, full, t, n - 1, src, dst, data, src, dst, data);
      SplitEqual(FieldsMoved(w, t, n - 1, src, dst, data), FieldMoved(w, t, n - 1, src, dst, data),
                 FieldsWanted(w, full, t, n - 1, src, dst, data), FieldWanted(w, full, t, n - 1, src, dst, data));
      if forall i :: 0 <= i < n - 1 ==> Sound(w, full, t.fields[i], src.base, dst.base) {
        PlainField(t, n - 1);
        SameFieldData(w, full, t, n - 1, src, dst, data);
        ClearField(w, false, t, n - 1, dst, data);
        MovedIff(w, full, t.fields[n - 1], Field(t, n - 1, From(w), src), Field(t, n - 1, To(w), dst), FieldData(false, t, n - 1, data));
      }
    }
  }

  lemma {:induction false} SameFieldData(w: Way, full: bool, t: CType, n: nat, src: Place, dst: Place, data: Place)
    requires t.Struct? && Plain(t) && n < |t.fields|
    requires forall i :: 0 <= i < n ==> Sound(w, full, t.fields[i], src.base, dst.base)
    ensures FieldData(w.Forth?, t, n, data) == FieldData(false, t, n, data)
    ensures Field(t, n, From(w), src).base == src.base
  {
    hide Plain, Sound, FieldAt, AfterFields;
    if w.Forth? {
      SoundFieldsData(full, t, n, src.base, dst.base, data.index);
    }
  }

  lemma {:induction false} SameLog(s: Cpu, a: seq<Move>, b: seq<Move>)
    ensures s.(log := s.log + a) == s.(log := s.log + b) <==> a == b
  {
    if s.log + a == s.log + b {
      assert a == (s.log + a)[|s.log|..] == (s.log + b)[|s.log|..] == b;
    }
  }

  /** An argument of a call, in the caller's frame or among the arguments on the stack. */
  predicate Argument(s: Cpu, src: Mem, dst: Mem)
  {
    src.base in {RSP, RBP} && dst.base in {RSP, RBP} && Ready(s, src, dst)
  }

  lemma {:induction false} ArgumentClear(w: Way, t: CType, src: Mem, dst: Mem, data: int, s: Cpu)
    requires Argument(s, src, dst)
    ensures Ready(s, src, dst) && Resolve(s, src).Some? && Resolve(s, dst).Some?
    ensures Clear(w, PlaceOf(s, dst), DataOf(s, data), SizeOf(t, X86_64))
    ensures PlaceOf(s, src).base == src.base && PlaceOf(s, dst).base == dst.base
  {
    hide SizeOf;
  }

  /** There is code for the type, and running it writes what is wanted and changes no register and no other word. */
  predicate Converts(w: Way, full: bool, t: CType, src: Mem, dst: Mem, data: int, s: Cpu)
    requires Argument(s, src, dst)
  {
    var e := Code(w, t, src, dst, data);
    e.Some? &&
    Run(e.value.code, s) == Some(s.(log := s.log + Wanted(w, full, t, PlaceOf(s, src), PlaceOf(s, dst), DataOf(s, data))))
  }

  /**
   For every plain type, both conversions and any argument in memory: the emitted code runs to its end, writes exactly
   what is wanted in its order and leaves everything else as it was, exactly when no `long double` is to be
   converted and the code is sound.
   */
  lemma {:induction false} ConvertedIff(w: Way, full: bool, t: CType, src: Mem, dst: Mem, data: int, s: Cpu)
    requires Plain(t) && Argument(s, src, dst)
    ensures Converts(w, full, t, src, dst, data, s) <==> Convertible(t) && Sound(w, full, t, src.base, dst.base)
  {
    ArgumentClear(w, t, src, dst, data, s);
    var x, y, z := PlaceOf(s, src), PlaceOf(s, dst), DataOf(s, data);
    CodeIff(w, t, src, dst, data);
    hide Code, Run, Moved, Wanted, Sound, Convertible, Plain, Argument, Clear, Ready, PlaceOf, DataOf, Resolve, SizeOf;
    if Convertible(t) {
      CodeRuns(w, t, src, dst, data, s);
      MovedIff(w, full, t, x, y, z);
      SameLog(s, Moved(w, t, x, y, z), Wanted(w, full, t, x, y, z));
    }
  }

  // ----- without pointers, what is wanted is given by the two layouts -----

  /** No pointee is converted. */
  predicate Flat(t: CType)
    decreases t
  {
    match t
    case Scalar(_) => true
    case PointerTo(_) => false
    case ConstantArray(elem, _) => Flat(elem)
    case Struct(fields, _) => forall i :: 0 <= i < |fields| ==> Flat(fields[i])
  }

  /** Scalar by scalar from the one layout to the other; the records start at `x` and `y`. */
  function Pairs(w: Way, full: bool, src: seq<Leaf>, dst: seq<Leaf>, x: Addr, y: Addr): (r: seq<Move>)
    requires |src| == |dst|
    ensures |r| == |src|
    ensures forall i :: 0 <= i < |r| ==> r[i] == WantedScalar(w, full, src[i].kind, Plus(x, src[i].at), Plus(y, dst[i].at))
  {
    seq(|src|, i requires 0 <= i < |src| == |dst| =>
      WantedScalar(w, full, src[i].kind, Plus(x, src[i].at), Plus(y, dst[i].at)))
  }

  lemma {:induction false} PairsAppend(
    w: Way, full: bool, a: seq<Leaf>, b: seq<Leaf>, c: seq<Leaf>, d: seq<Leaf>, x: Addr, y: Addr)
    requires |a| == |b| && |c| == |d|
    ensures Pairs(w, full, a, b, x, y) + Pairs(w, full, c, d, x, y) == Pairs(w, full, a + c, b + d, x, y)
  {
    hide WantedScalar;
  }

  lemma {:induction false} PairsShifted(w: Way, full: bool, a: seq<Leaf>, b: seq<Leaf>, m: int, n: int, x: Addr, y: Addr)
    requires |a| == |b|
    ensures Pairs(w, full, Shifted(a, m), Shifted(b, n), x, y) == Pairs(w, full, a, b, Plus(x, m), Plus(y, n))
  {
    hide WantedScalar;
  }

  function Origin(p: Place): Addr
  {
    Plus(p.at, -p.index)
  }

  lemma {:induction false} FlatParts(t: CType)
    requires Flat(t)
    ensures !t.PointerTo?
    ensures t.ConstantArray? ==> Flat(t.elem)
    ensures t.Struct? ==> forall i :: 0 <= i < |t.fields| ==> Flat(t.fields[i])
  {
  }

  /** The scalars of the two layouts, first to last, each from its place in the one record to its place in the other. */
  lemma {:induction false} WantedIsPairs(w: Way, full: bool, t: CType, src: Place, dst: Place, data: Place)
    requires Flat(t)
    ensures |Leaves(t, From(w), src.index)| == |Leaves(t, To(w), dst.index)|
    ensures Wanted(w, full, t, src, dst, data) ==
            Pairs(w, full, Leaves(t, From(w), src.index), Leaves(t, To(w), dst.index), Origin(src), Origin(dst))
    decreases t, 1, 0
  {
    hide *;
    SameLeaves(t, From(w), To(w), src.index, dst.index);
    FlatParts(t);
    match t
    case Scalar(k) => ScalarIsPairs(w, full, k, src, dst, data);
    case ConstantArray(elem, count) =>
      ElementsArePairs(w, full, elem, count, src, dst, data);
      ArrayWantedIs(w, full, elem, count, src, dst, data);
      ArrayLeavesIs(elem, count, From(w), src.index);
      ArrayLeavesIs(elem, count, To(w), dst.index);
    case Struct(fields, _) =>
      FieldsArePairs(w, full, t, |fields|, src, dst, data);
      StructWantedIs(w, full, t, src, dst, data);
      StructLeavesIs(t, From(w), src.index);
      StructLeavesIs(t, To(w), dst.index);
  }

  lemma {:induction false} StructLeavesIs(t: CType, a: Arch, start: int)
    requires t.Struct?
    ensures Leaves(t, a, start) == FieldLeaves(t, |t.fields|, a, start)
  {
    hide FieldLeaves;
  }

  lemma {:induction false} ScalarIsPairs(w: Way, full: bool, k: Kind, src: Place, dst: Place, data: Place)
    requires |Leaves(Scalar(k), From(w), src.index)| == |Leaves(Scalar(k), To(w), dst.index)|
    ensures Wanted(w, full, Scalar(k), src, dst, data) ==
            Pairs(w, full, Leaves(Scalar(k), From(w), src.index), Leaves(Scalar(k), To(w), dst.index), Origin(src), Origin(dst))
  {
    hide WantedScalar;
    assert Plus(Origin(src), src.index) == src.at && Plus(Origin(dst), dst.index) == dst.at;
  }

  lemma {:induction false} ElementPairs(w: Way, full: bool, elem: CType, i: nat, src: Place, dst: Place, data: Place)
    requires Flat(elem)
    ensures
      var ls, ms := Leaves(elem, From(w), 0), Leaves(elem, To(w), 0);
      && |ls| == |ms|
      && ElementWanted(w, full, elem, i, src, dst, data) ==
         Pairs(w, full, Shifted(ls, src.index + i * SizeOf(elem, From(w))), Shifted(ms, dst.index + i * SizeOf(elem, To(w))),
               Origin(src), Origin(dst))
    decreases elem, 2
  {
    hide *;
    var ls, ms := Leaves(elem, From(w), 0), Leaves(elem, To(w), 0);
    var s, d := SizeOf(elem, From(w)), SizeOf(elem, To(w));
    var x, y := Element(RSI, src.at, i, s), Element(RDI, dst.at, i, d);
    ElementOrigin(RSI, src, i, s);
    ElementOrigin(RDI, dst, i, d);
    WantedIsPairs(w, full, elem, x, y, ElementData(w, elem, i, data));
    PairsShifted(w, full, ls, ms, src.index + i * s, dst.index + i * d, Origin(src), Origin(dst));
    NextElements(w, full, elem, i + 1, src, dst, data);
  }

  lemma {:induction false} ElementOrigin(r: Reg, p: Place, i: nat, size: nat)
    ensures var e := Element(r, p.at, i, size); e.index == 0 && Origin(e) == Plus(Origin(p), p.index + i * size)
  {
  }

  lemma {:induction false} RepeatedNext(ls: seq<Leaf>, n: nat, size: nat, start: int)
    ensures Repeated(ls, 0, size, start) == []
    ensures Repeated(ls, n + 1, size, start) == Repeated(ls, n, size, start) + Shifted(ls, start + n * size)
  {
    hide Shifted;
  }

  lemma {:induction false} NoPairs(w: Way, full: bool, x: Addr, y: Addr)
    ensures Pairs(w, full, [], [], x, y) == []
  {
  }

  lemma {:induction false} ElementsArePairs(w: Way, full: bool, elem: CType, n: nat, src: Place, dst: Place, data: Place)
    requires Flat(elem)
    ensures
      var ls := Repeated(Leaves(elem, From(w), 0), n, SizeOf(elem, From(w)), src.index);
      var ms := Repeated(Leaves(elem, To(w), 0), n, SizeOf(elem, To(w)), dst.index);
      |ls| == |ms| && ElementsWanted(w, full, elem, n, src, dst, data) == Pairs(w, full, ls, ms, Origin(src), Origin(dst))
    decreases elem, 3, n
  {
    hide *;
    var ls, ms := Leaves(elem, From(w), 0), Leaves(elem, To(w), 0);
    var s, d := SizeOf(elem, From(w)), SizeOf(elem, To(w));
    NextElements(w, full, elem, n, src, dst, data);
    if n == 0 {
      RepeatedNext(ls, 0, s, src.index);
      RepeatedNext(ms, 0, d, dst.index);
      NoPairs(w, full, Origin(src), Origin(dst));
    } else {
      ElementsArePairs(w, full, elem, n - 1, src, dst, data);
      ElementPairs(w, full, elem, n - 1, src, dst, data);
      RepeatedNext(ls, n - 1, s, src.index);
      RepeatedNext(ms, n - 1, d, dst.index);
      ShiftedLength(ls, src.index + (n - 1) * s);
      ShiftedLength(ms, dst.index + (n - 1) * d);
      PairsAppend(w, full, Repeated(ls, n - 1, s, src.index), Repeated(ms, n - 1, d, dst.index),
                  Shifted(ls, src.index + (n - 1) * s), Shifted(ms, dst.index + (n - 1) * d), Origin(src), Origin(dst));
    }
  }

  lemma {:induction false} ShiftedLength(ls: seq<Leaf>, delta: int)
    ensures |Shifted(ls, delta)| == |ls|
  {
  }

  lemma {:induction false} FieldOrigin(t: CType, i: nat, a: Arch, p: Place)
    requires t.Struct? && i < |t.fields|
    ensures Field(t, i, a, p).index == FieldAt(t, i, a, p.index) && Origin(Field(t, i, a, p)) == Origin(p)
  {
    hide FieldAt;
  }

  lemma {:induction false} FieldsArePairs(w: Way, full: bool, t: CType, n: nat, src: Place, dst: Place, data: Place)
    requires t.Struct? && n <= |t.fields| && forall i :: 0 <= i < |t.fields| ==> Flat(t.fields[i])
    ensures |FieldLeaves(t, n, From(w), src.index)| == |FieldLeaves(t, n, To(w), dst.index)|
    ensures FieldsWanted(w, full, t, n, src, dst, data) ==
            Pairs(w, full, FieldLeaves(t, n, From(w), src.index), FieldLeaves(t, n, To(w), dst.index), Origin(src), Origin(dst))
    decreases t, 0, n
  {
    hide *;
    NextFields(w, full, t, n, src, dst, data);
    if n == 0 {
      NoFieldLeaves(t, From(w), src.index);
      NoFieldLeaves(t, To(w), dst.index);
      NoPairs(w, full, Origin(src), Origin(dst));
    } else {
      var i := n - 1;
      var f, x, y := t.fields[i], Field(t, i, From(w), src), Field(t, i, To(w), dst);
      FieldsArePairs(w, full, t, i, src, dst, data);
      WantedIsPairs(w, full, f, x, y, FieldData(w.Forth?, t, i, data));
      FieldOrigin(t, i, From(w), src);
      FieldOrigin(t, i, To(w), dst);
      FieldLeavesNext(t, i, From(w), src.index);
      FieldLeavesNext(t, i, To(w), dst.index);
      PairsAppend(w, full, FieldLeaves(t, i, From(w), src.index), FieldLeaves(t, i, To(w), dst.index),
                  Leaves(f, From(w), x.index), Leaves(f, To(w), y.index), Origin(src), Origin(dst));
    }
  }

  // ----- there and back -----

  /** Every scalar that was written, read again and put back where it came from; new pointers stay. */
  function Returned(moves: seq<Move>): seq<Move>
  {
    if moves == [] then []
    else
      var m := moves[0];
      (if m.value.Bits? then [Move(Bits(m.dst, m.value.read, m.value.read, Zero), m.value.at, m.value.read)] else []) +
      Returned(moves[1..])
  }

  lemma {:induction false} ReturnedAppend(a: seq<Move>, b: seq<Move>)
    ensures Returned(a + b) == Returned(a) + Returned(b)
    decreases a
  {
    if a == [] {
      assert [] + b == b;
    } else {
      assert (a + b)[1..] == a[1..] + b;
      ReturnedAppend(a[1..], b);
    }
  }

  lemma {:induction false} NothingReturned(m: Move)
    ensures Returned([]) == [] && (m.value.Address? ==> Returned([m]) == [])
    ensures m.value.Bits? ==>
      Returned([m]) == [Move(Bits(m.dst, m.value.read, m.value.read, Zero), m.value.at, m.value.read)]
  {
    assert [m][1..] == [];
  }

  predicate Spot(p: Place, q: Place)
  {
    p.index == q.index && p.at == q.at
  }

  lemma {:induction false} ScalarReturns(full: bool, back: bool, k: Kind, src: Addr, dst: Addr)
    requires Converted(k)
    ensures [WantedScalar(Back, back, k, dst, src)] == Returned([WantedScalar(Forth, full, k, src, dst)])
  {
    NothingReturned(WantedScalar(Forth, full, k, src, dst));
  }

  /**
   What is wanted on the way back is what was wanted on the way there, turned round: behind pointers too, and in the
   same order.
   */
  lemma {:induction false} WantedBack(
    full: bool, back: bool, t: CType, src: Place, dst: Place, src': Place, dst': Place, data: Place, a: Reg, b: Reg)
    requires Plain(t) && Sound(Forth, false, t, a, b) && Spot(src', dst) && Spot(dst', src)
    ensures Wanted(Back, back, t, src', dst', data) == Returned(Wanted(Forth, full, t, src, dst, data))
    decreases t, 1, 0
  {
    match t
    case Scalar(k) =>
      if Converted(k) {
        ScalarReturns(full, back, k, src.at, dst.at);
      }
    case PointerTo(pointee) =>
      var slot := Slot(pointee, data);
      hide Slot, Behind, Wanted, Plain;
      WantedBack(full, back, pointee, PointeeSrc(Forth, src, slot), PointeeDst(Forth, dst, slot),
                 PointeeSrc(Back, src', slot), PointeeDst(Back, dst', slot), Behind(pointee, slot), R12, R11);
      PointerReturns(full, back, pointee, src, dst, src', dst', data);
    case ConstantArray(elem, count) =>
      ElementsBack(full, back, elem, count, count, src, dst, src', dst', data);
      hide *;
      ArrayWantedIs(Forth, full, elem, count, src, dst, data);
      ArrayWantedIs(Back, back, elem, count, src', dst', data);
    case Struct(fields, _) =>
      FieldsBack(full, back, t, |fields|, src, dst, src', dst', data, a, b);
  }

  lemma {:induction false} PointerReturns(
    full: bool, back: bool, pointee: CType, src: Place, dst: Place, src': Place, dst': Place, data: Place)
    requires
      var slot := Slot(pointee, data);
      Wanted(Back, back, pointee, PointeeSrc(Back, src', slot), PointeeDst(Back, dst', slot), Behind(pointee, slot)) ==
      Returned(Wanted(Forth, full, pointee, PointeeSrc(Forth, src, slot), PointeeDst(Forth, dst, slot), Behind(pointee, slot)))
    ensures Wanted(Back, back, PointerTo(pointee), src', dst', data) ==
            Returned(Wanted(Forth, full, PointerTo(pointee), src, dst, data))
  {
    var slot := Slot(pointee, data);
    var head := WantedPointer(Forth, full, dst, slot);
    var inner := Wanted(Forth, full, pointee, PointeeSrc(Forth, src, slot), PointeeDst(Forth, dst, slot), Behind(pointee, slot));
    NothingReturned(head[0]);
    assert head == [head[0]];
    hide Wanted, Slot, Behind, PointeeSrc, PointeeDst, Returned;
    WantedPointerIs(Forth, full, pointee, src, dst, data);
    BackPointer(back, pointee, src', dst', data);
    ReturnedAppend(head, inner);
    assert [] + Returned(inner) == Returned(inner);
  }

  lemma {:induction false} ElementSpots(elem: CType, i: nat, n: nat, src: Place, dst: Place, src': Place, dst': Place, data: Place)
    requires Plain(elem) && Spot(src', dst) && Spot(dst', src) && i < n && (n <= 1 || !Allocates(elem))
    ensures Spot(Element(RSI, src'.at, i, SizeOf(elem, From(Back))), Element(RDI, dst.at, i, SizeOf(elem, To(Forth))))
    ensures Spot(Element(RDI, dst'.at, i, SizeOf(elem, To(Back))), Element(RSI, src.at, i, SizeOf(elem, From(Forth))))
    ensures ElementData(Forth, elem, i, data) == ElementData(Back, elem, i, data)
  {
    hide SizeOf, Plain, Allocates, After;
    if i == 0 {
      OneElement(elem, data.index);
    } else {
      NoRoomElements(elem, i, data.index);
    }
  }

  lemma {:induction false} ElementsBack(
    full: bool, back: bool, elem: CType, n: nat, count: nat, src: Place, dst: Place, src': Place, dst': Place, data: Place)
    requires Plain(elem) && Sound(Forth, false, elem, RSI, RDI) && (count <= 1 || PassesFit(Forth, elem)) && n <= count
    requires Spot(src', dst) && Spot(dst', src)
    ensures ElementsWanted(Back, back, elem, n, src', dst', data) == Returned(ElementsWanted(Forth, full, elem, n, src, dst, data))
    decreases elem, 2, n
  {
    hide *;
    NextElements(Forth, full, elem, n, src, dst, data);
    NextElements(Back, back, elem, n, src', dst', data);
    if n == 0 {
      ReturnedEmpty();
    } else {
      var i := n - 1;
      ElementsBack(full, back, elem, i, count, src, dst, src', dst', data);
      ForthFits(elem);
      ElementSpots(elem, i, count, src, dst, src', dst', data);
      WantedBack(full, back, elem,
                 Element(RSI, src.at, i, SizeOf(elem, From(Forth))), Element(RDI, dst.at, i, SizeOf(elem, To(Forth))),
                 Element(RSI, src'.at, i, SizeOf(elem, From(Back))), Element(RDI, dst'.at, i, SizeOf(elem, To(Back))),
                 ElementData(Forth, elem, i, data), RSI, RDI);
      ReturnedAppend(ElementsWanted(Forth, full, elem, i, src, dst, data), ElementWanted(Forth, full, elem, i, src, dst, data));
    }
  }

  lemma {:induction false} ReturnedEmpty()
    ensures Returned([]) == []
  {
  }

  lemma {:induction false} ForthFits(elem: CType)
    ensures PassesFit(Forth, elem) <==> !Allocates(elem)
  {
    hide Allocates, Yields, SizeOf;
  }

  lemma {:induction false} FieldSpots(
    full: bool, t: CType, i: nat, src: Place, dst: Place, src': Place, dst': Place, data: Place, a: Reg, b: Reg)
    requires t.Struct? && Plain(t) && i < |t.fields| && Spot(src', dst) && Spot(dst', src)
    requires forall j :: 0 <= j < |t.fields| ==> Sound(Forth, full, t.fields[j], a, b)
    ensures Spot(Field(t, i, From(Back), src'), Field(t, i, To(Forth), dst))
    ensures Spot(Field(t, i, To(Back), dst'), Field(t, i, From(Forth), src))
    ensures FieldData(Forth.Forth?, t, i, data) == FieldData(Back.Forth?, t, i, data)
  {
    SoundFieldsData(full, t, i, a, b, data.index);
    hide FieldAt, AfterFields, Sound, Plain;
  }

  lemma {:induction false} FieldsBack(
    full: bool, back: bool, t: CType, n: nat, src: Place, dst: Place, src': Place, dst': Place, data: Place, a: Reg, b: Reg)
    requires t.Struct? && Plain(t) && Sound(Forth, false, t, a, b) && n <= |t.fields| && Spot(src', dst) && Spot(dst', src)
    ensures FieldsWanted(Back, back, t, n, src', dst', data) == Returned(FieldsWanted(Forth, full, t, n, src, dst, data))
    decreases t, 0, n
  {
    hide *;
    NextFields(Forth, full, t, n, src, dst, data);
    NextFields(Back, back, t, n, src', dst', data);
    if n == 0 {
      ReturnedEmpty();
    } else {
      var i := n - 1;
      FieldsBack(full, back, t, i, src, dst, src', dst', data, a, b);
      PlainField(t, i);
      StructSoundIs(Forth, false, t, a, b);
      FieldSpots(false, t, i, src, dst, src', dst', data, a, b);
      WantedBack(full, back, t.fields[i], Field(t, i, From(Forth), src), Field(t, i, To(Forth), dst),
                 Field(t, i, From(Back), src'), Field(t, i, To(Back), dst'), FieldData(Forth.Forth?, t, i, data), a, b);
      ReturnedAppend(FieldsWanted(Forth, full, t, i, src, dst, data), FieldWanted(Forth, full, t, i, src, dst, data));
    }
  }

  /**
   A call around which both conversions are sound: the second one reads every scalar the first one wrote, behind
   pointers too, and writes it to where the first one read it.
   */
  lemma {:induction false} ThereAndBack(t: CType, src: Mem, dst: Mem, data: int, s: Cpu, r: Cpu)
    requires Plain(t) && Convertible(t) && Argument(s, src, dst) && Argument(r, dst, src)
    requires s.rsp == r.rsp && Resolve(r, src) == Resolve(s, src) && Resolve(r, dst) == Resolve(s, dst)
    requires Sound(Forth, false, t, src.base, dst.base) && Sound(Back, false, t, dst.base, src.base)
    ensures Resolve(s, src).Some? && Resolve(s, dst).Some?
    ensures
      var there, back := Code(Forth, t, src, dst, data), Code(Back, t, dst, src, data);
      var moves := Wanted(Forth, false, t, PlaceOf(s, src), PlaceOf(s, dst), DataOf(s, data));
      && there.Some? && back.Some?
      && Run(there.value.code, s) == Some(s.(log := s.log + moves))
      && Run(back.value.code, r) == Some(r.(log := r.log + Returned(moves)))
  {
    ArgumentClear(Forth, t, src, dst, data, s);
    ArgumentClear(Back, t, dst, src, data, r);
    var x, y, z := PlaceOf(s, src), PlaceOf(s, dst), DataOf(s, data);
    assert Spot(PlaceOf(r, dst), y) && Spot(PlaceOf(r, src), x) && DataOf(r, data) == z;
    ConvertedIff(Forth, false, t, src, dst, data, s);
    ConvertedIff(Back, false, t, dst, src, data, r);
    hide Code, Run, Moved, Wanted, Sound, Convertible, Plain, Argument, Clear, Ready, PlaceOf, DataOf, Resolve, SizeOf, Returned;
    WantedBack(false, false, t, x, y, PlaceOf(r, dst), PlaceOf(r, src), z, src.base, dst.base);
  }

  // ----- from i386 to x86_64 -----

  /** A real that is not inside an array. */
  predicate OpenReal(t: CType)
    decreases t
  {
    match t
    case Scalar(k) => Real(k)
    case PointerTo(_) => false
    case ConstantArray(_, _) => false
    case Struct(fields, _) => exists i :: 0 <= i < |fields| && OpenReal(fields[i])
  }

  lemma {:induction false} NoRoomFlat(t: CType)
    requires Flat(t)
    ensures !Allocates(t)
  {
    match t
    case Scalar(_) =>
    case ConstantArray(elem, _) => NoRoomFlat(elem);
    case Struct(fields, _) =>
      forall i | 0 <= i < |fields| ensures !Allocates(fields[i]) {
        NoRoomFlat(fields[i]);
      }
  }

  lemma {:induction false} FlatArray(elem: CType, n: nat, src: Reg, dst: Reg)
    requires Flat(elem) && Sound(Forth, false, elem, RSI, RDI)
    ensures Sound(Forth, false, ConstantArray(elem, n), src, dst)
  {
    hide *;
    NoRoomFlat(elem);
    ForthFits(elem);
    ArraySoundIs(Forth, false, elem, n, src, dst);
  }

  /**
   From i386 to x86_64 a type without converted pointers is converted scalar by scalar, low halves of unsigned numbers
   at least, exactly unless a real outside arrays is moved relative to `rsp`.
   */
  lemma {:induction false} ForwardStraight(t: CType, src: Reg, dst: Reg)
    requires Flat(t)
    ensures Sound(Forth, false, t, src, dst) <==> (src != RSP && dst != RSP) || !OpenReal(t)
    decreases t
  {
    match t
    case Scalar(_) =>
    case ConstantArray(elem, count) =>
      ForwardStraight(elem, RSI, RDI);
      FlatArray(elem, count, src, dst);
    case Struct(fields, _) =>
      forall i | 0 <= i < |fields|
        ensures Sound(Forth, false, fields[i], src, dst) <==> (src != RSP && dst != RSP) || !OpenReal(fields[i])
      {
        ForwardStraight(fields[i], src, dst);
      }
      StructSoundIs(Forth, false, t, src, dst);
      hide Sound;
  }

  // ----- how it falls short -----

  /** No code for a `long double`, nor for a pointer to a record with one. */
  lemma {:induction false} LongDoubleStops(w: Way, src: Mem, dst: Mem, data: int)
    ensures Code(w, Scalar(LongDouble), src, dst, data) == None
    ensures Code(w, PointerTo(Struct([Scalar(Int), Scalar(LongDouble)], false)), src, dst, data) == None
  {
    var t := Struct([Scalar(Int), Scalar(LongDouble)], false);
    assert !Convertible(t.fields[1]);
    hide Code;
    CodeIff(w, Scalar(LongDouble), src, dst, data);
    CodeIff(w, PointerTo(t), src, dst, data);
  }

  /** On the way back a converted pointer itself is not written: only what it leads to. */
  lemma {:induction false} PointerStays(src: Place, dst: Place, data: Place)
    ensures
      var slot := Slot(Scalar(Int), data);
      Moved(Back, PointerTo(Scalar(Int)), src, dst, data) == [Move(Bits(slot.at, 4, 4, Zero), Addr(Held(dst.at), 0), 4)]
  {
    var slot := Slot(Scalar(Int), data);
    var s, d := PointeeSrc(Back, src, slot), PointeeDst(Back, dst, slot);
    PointerMoved(Back, Scalar(Int), src, dst, data);
    hide Slot, Behind;
    assert Moved(Back, Scalar(Int), s, d, Behind(Scalar(Int), slot)) == ScalarMoves(Back, Int, s, d);
  }

  /**
   In a record behind a pointer a new pointer goes to the new data and not to its field: the second field of a record
   at `at`, which should get it at `at + 8`, gets nothing.
   */
  lemma {:induction false} PointerLost(src: Place, at: Addr, data: Place)
    ensures
      var slot := Slot(Scalar(Int), data);
      && Moved(Forth, PointerTo(Scalar(Int)), src, Place(R11, 8, Plus(at, 8)), data) ==
         [Move(Address(slot.at), Plus(slot.at, 8), 4), Move(Bits(Addr(Held(src.at), 0), 4, 4, Zero), slot.at, 4)]
      && Wanted(Forth, false, PointerTo(Scalar(Int)), src, Place(R11, 8, Plus(at, 8)), data) ==
         [Move(Address(slot.at), Plus(at, 8), 4), Move(Bits(Addr(Held(src.at), 0), 4, 4, Zero), slot.at, 4)]
  {
    var slot, dst := Slot(Scalar(Int), data), Place(R11, 8, Plus(at, 8));
    var s, d := PointeeSrc(Forth, src, slot), PointeeDst(Forth, dst, slot);
    PointerMoved(Forth, Scalar(Int), src, dst, data);
    WantedPointerIs(Forth, false, Scalar(Int), src, dst, data);
    hide Slot, Behind;
    assert Moved(Forth, Scalar(Int), s, d, Behind(Scalar(Int), slot)) == ScalarMoves(Forth, Int, s, d);
  }

  /** The pointers of an array all lead to the same room. */
  lemma {:induction false} PointersShare(full: bool, src: Place, dst: Place, data: Place)
    ensures
      var t, slot := PointerTo(Scalar(Int)), Slot(Scalar(Int), data);
      && ElementMoved(Forth, t, 0, src, dst, data)[..1] == [Move(Address(slot.at), dst.at, 4)]
      && ElementMoved(Forth, t, 1, src, dst, data)[..1] == [Move(Address(slot.at), Plus(dst.at, 8), 4)]
      && !Sound(Forth, full, ConstantArray(t, 2), src.base, dst.base)
  {
    var t, slot := PointerTo(Scalar(Int)), Slot(Scalar(Int), data);
    var s, d := SizeOf(t, I386), SizeOf(t, X86_64);
    PointerMoved(Forth, Scalar(Int), Element(RSI, src.at, 0, s), Element(RDI, dst.at, 0, d), data);
    PointerMoved(Forth, Scalar(Int), Element(RSI, src.at, 1, s), Element(RDI, dst.at, 1, d), data);
    assert Plus(dst.at, 0) == dst.at;
    hide Moved, Slot, Behind;
  }

  /** Only half of an unsigned number that gets wider is written. */
  lemma {:induction false} HalfWritten(src: Place, dst: Place, data: Place)
    ensures Moved(Forth, Scalar(ULong), src, dst, data) == [Move(Bits(src.at, 4, 4, Zero), dst.at, 4)]
    ensures ScalarSize(ULong, X86_64) == 8 && !Sound(Forth, true, Scalar(ULong), src.base, dst.base)
  {
  }

  /** A real among the arguments on the stack is written eight bytes too low. */
  lemma {:induction false} RealTooLow(w: Way, src: Place, at: Addr, index: int, data: Place)
    requires !src.base.RSP?
    ensures Moved(w, Scalar(Double), src, Place(RSP, index, at), data) == [Move(Bits(src.at, 8, 8, Zero), Plus(at, -8), 8)]
  {
  }

  /** Back from x86_64, the second of two `long`s is read at 4 and written at 8. */
  lemma {:induction false} BackwardLongs(full: bool, src: Place, dst: Place, data: Place)
    ensures
      var t := ConstantArray(Scalar(Long), 2);
      && Moved(Back, t, src, dst, data) ==
         [Move(Bits(src.at, 4, 4, Zero), dst.at, 4), Move(Bits(Plus(src.at, 4), 4, 4, Zero), Plus(dst.at, 8), 4)]
      && Wanted(Back, full, t, src, dst, data) ==
         [Move(Bits(src.at, 4, 4, Zero), dst.at, 4), Move(Bits(Plus(src.at, 8), 4, 4, Zero), Plus(dst.at, 4), 4)]
  {
    var e := Scalar(Long);
    ArrayWantedIs(Back, full, e, 2, src, dst, data);
    LongElement(full, 0, src, dst, data);
    LongElement(full, 1, src, dst, data);
    NextElements(Back, full, e, 0, src, dst, data);
    NextElements(Back, full, e, 1, src, dst, data);
    NextElements(Back, full, e, 2, src, dst, data);
    hide Moved, Wanted, ElementMoved, ElementWanted, ElementsMoved, ElementsWanted;
    assert Plus(src.at, 0) == src.at && Plus(dst.at, 0) == dst.at;
  }

  lemma {:induction false} LongElement(full: bool, i: nat, src: Place, dst: Place, data: Place)
    requires i < 2
    ensures ElementMoved(Back, Scalar(Long), i, src, dst, data) ==
            [Move(Bits(Plus(src.at, 4 * i), 4, 4, Zero), Plus(dst.at, 8 * i), 4)]
    ensures ElementWanted(Back, full, Scalar(Long), i, src, dst, data) ==
            [Move(Bits(Plus(src.at, 8 * i), 4, 4, Zero), Plus(dst.at, 4 * i), 4)]
  {
    assert i * 4 == 4 * i && i * 8 == 8 * i;
  }
}
