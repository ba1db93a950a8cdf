/**
 The room the ABI converter takes on the stack for what converted pointers lead to (src/abiconv/typeconv.cc):
 every pointee gets room of its own, aligned, behind the rooms before it.
 */
module ConvertRooms {
  import opened Wrappers
  import opened Arith
  import opened RecordLayout
  import opened ConvertCode
  import opened ConvertRun
  import opened RecordConvert

  /** Room for one pointee, from index `at` on. */
  datatype Room = Room(pointee: CType, at: int)

  /** The rooms taken for a value, outermost pointer first. */
  function Rooms(t: CType, data: int): seq<Room>
    decreases t, 1, 0
  {
    match t
    case Scalar(_) => []
    case PointerTo(pointee) =>
      var at := SlotIndex(pointee, data);
      [Room(pointee, at)] + Rooms(pointee, at + SizeOf(pointee, X86_64))
    case ConstantArray(elem, _) => Rooms(elem, data)
    case Struct(fields, _) => FieldRooms(t, |fields|, data)
  }

  function FieldRooms(t: CType, n: nat, data: int): seq<Room>
    requires t.Struct? && n <= |t.fields|
    decreases t, 0, n
  {
    if n == 0 then [] else FieldRooms(t, n - 1, data) + Rooms(t.fields[n - 1], AfterFields(false, t, n - 1, data))
  }

  /** Aligned for their pointees, inside `[lo, hi)`, in order and apart. */
  ghost predicate Apart(rs: seq<Room>, lo: int, hi: int)
  {
    && (forall i :: 0 <= i < |rs| ==>
          && rs[i].at % AlignOf(rs[i].pointee, X86_64) == 0
          && lo <= rs[i].at && rs[i].at + SizeOf(rs[i].pointee, X86_64) <= hi)
    && (forall i, j :: 0 <= i < j < |rs| ==> rs[i].at + SizeOf(rs[i].pointee, X86_64) <= rs[j].at)
  }

  lemma {:induction false} ApartJoin(a: seq<Room>, b: seq<Room>, lo: int, mid: int, hi: int)
    requires Apart(a, lo, mid) && Apart(b, mid, hi) && lo <= mid <= hi
    ensures Apart(a + b, lo, hi)
  {
    hide SizeOf, AlignOf;
  }

  lemma {:induction false} RoomsApart(t: CType, data: int)
    ensures Apart(Rooms(t, data), data, After(false, t, data))
    decreases t, 1, 0
  {
    match t
    case Scalar(_) =>
    case PointerTo(pointee) =>
      var at := SlotIndex(pointee, data);
      AlignIndexIsLeast(data, AlignOf(pointee, X86_64));
      RoomsApart(pointee, at + SizeOf(pointee, X86_64));
      AfterGrows(false, pointee, at + SizeOf(pointee, X86_64));
      assert Apart([Room(pointee, at)], data, at + SizeOf(pointee, X86_64));
      hide SizeOf, AlignOf, AlignIndex, After, Rooms, Apart;
      ApartJoin([Room(pointee, at)], Rooms(pointee, at + SizeOf(pointee, X86_64)), data, at + SizeOf(pointee, X86_64),
                After(false, pointee, at + SizeOf(pointee, X86_64)));
      PointerRooms(pointee, data);
    case ConstantArray(elem, _) => RoomsApart(elem, data);
    case Struct(fields, _) => FieldRoomsApart(t, |fields|, data);
  }

  lemma {:induction false} PointerRooms(pointee: CType, data: int)
    ensures
      var at := SlotIndex(pointee, data);
      && Rooms(PointerTo(pointee), data) == [Room(pointee, at)] + Rooms(pointee, at + SizeOf(pointee, X86_64))
      && After(false, PointerTo(pointee), data) == After(false, pointee, at + SizeOf(pointee, X86_64))
  {
    hide SlotIndex, SizeOf;
  }

  lemma {:induction false} FieldRoomsApart(t: CType, n: nat, data: int)
    requires t.Struct? && n <= |t.fields|
    ensures Apart(FieldRooms(t, n, data), data, AfterFields(false, t, n, data))
    decreases t, 0, n
  {
    if n > 0 {
      var mid := AfterFields(false, t, n - 1, data);
      FieldRoomsApart(t, n - 1, data);
      RoomsApart(t.fields[n - 1], mid);
      AfterFieldsGrows(false, t, n - 1, data);
      AfterGrows(false, t.fields[n - 1], mid);
      hide SizeOf, AlignOf, After, Rooms, Apart;
      ApartJoin(FieldRooms(t, n - 1, data), Rooms(t.fields[n - 1], mid), data, mid, After(false, t.fields[n - 1], mid));
    }
  }

  // ----- the pointers that are written -----

  /** The addresses among the values written, in order. */
  function Pointers(moves: seq<Move>): seq<Addr>
  {
    if moves == [] then []
    else (if moves[0].value.Address? then [moves[0].value.addr] else []) + Pointers(moves[1..])
  }

  lemma {:induction false} PointersAppend(a: seq<Move>, b: seq<Move>)
    ensures Pointers(a + b) == Pointers(a) + Pointers(b)
  {
    hide Pointers;
    if a == [] {
      NoPointers();
      assert a + b == b && [] + Pointers(b) == Pointers(b);
    } else {
      PointersAppend(a[1..], b);
      PointersCons(a);
      PointersCons(a + b);
      assert (a + b)[1..] == a[1..] + b && (a + b)[0] == a[0];
    }
  }

  lemma {:induction false} NoPointers()
    ensures Pointers([]) == []
  {
  }

  lemma {:induction false} PointersCons(a: seq<Move>)
    requires a != []
    ensures Pointers(a) == (if a[0].value.Address? then [a[0].value.addr] else []) + Pointers(a[1..])
  {
  }

  /** No array of converted pointers, whose elements would share their rooms. */
  predicate Unshared(t: CType)
    decreases t
  {
    match t
    case Scalar(_) => true
    case PointerTo(pointee) => Unshared(pointee)
    case ConstantArray(elem, _) => Flat(elem)
    case Struct(fields, _) => forall i :: 0 <= i < |fields| ==> Unshared(fields[i])
  }

  /** The address of index `at`, with the data cursor at `data`. */
  function AddressOf(data: Place, at: int): Addr
  {
    Plus(data.at, at - data.index)
  }

  function RoomAddresses(rs: seq<Room>, data: Place): (s: seq<Addr>)
    ensures |s| == |rs| && forall i :: 0 <= i < |rs| ==> s[i] == AddressOf(data, rs[i].at)
  {
    seq(|rs|, i requires 0 <= i < |rs| => AddressOf(data, rs[i].at))
  }

  lemma {:induction false} FlatHasNone(t: CType, src: Place, dst: Place, data: Place)
    requires Flat(t)
    ensures Pointers(Moved(Forth, t, src, dst, data)) == [] && Rooms(t, data.index) == []
    decreases t, 1, 0
  {
    match t
    case Scalar(_) =>
    case ConstantArray(elem, count) =>
      FlatHasNone(elem, src, dst, data);
      FlatElements(elem, count, src, dst, data);
    case Struct(fields, _) => FlatFields(t, |fields|, src, dst, data);
  }

  lemma {:induction false} FlatElements(elem: CType, n: nat, src: Place, dst: Place, data: Place)
    requires Flat(elem)
    ensures Pointers(ElementsMoved(Forth, elem, n, src, dst, data)) == []
    decreases elem, 2, n
  {
    if n > 0 {
      FlatElements(elem, n - 1, src, dst, data);
      var s, d := Element(RSI, src.at, n - 1, SizeOf(elem, I386)), Element(RDI, dst.at, n - 1, SizeOf(elem, X86_64));
      FlatHasNone(elem, s, d, data);
      hide Moved, SizeOf, Flat;
      PointersAppend(ElementsMoved(Forth, elem, n - 1, src, dst, data), Moved(Forth, elem, s, d, data));
    }
  }

  lemma {:induction false} FlatFields(t: CType, n: nat, src: Place, dst: Place, data: Place)
    requires t.Struct? && Flat(t) && n <= |t.fields|
    ensures Pointers(FieldsMoved(Forth, t, n, src, dst, data)) == [] && FieldRooms(t, n, data.index) == []
    decreases t, 0, n
  {
    if n > 0 {
      FlatFields(t, n - 1, src, dst, data);
      var f := t.fields[n - 1];
      var s, d, p := Field(t, n - 1, I386, src), Field(t, n - 1, X86_64, dst), FieldData(false, t, n - 1, data);
      FlatHasNone(f, s, d, p);
      hide Moved, SizeOf, AlignOf, Flat, FieldAt, After, Rooms;
      PointersAppend(FieldsMoved(Forth, t, n - 1, src, dst, data), Moved(Forth, f, s, d, p));
    }
  }

  /** The new pointers lead to the rooms, one to each, in order. */
  lemma {:induction false} PointersLead(t: CType, src: Place, dst: Place, data: Place)
    requires Unshared(t)
    ensures Pointers(Moved(Forth, t, src, dst, data)) == RoomAddresses(Rooms(t, data.index), data)
    decreases t, 1, 0
  {
    match t
    case Scalar(_) =>
    case PointerTo(pointee) =>
      var slot := Slot(pointee, data);
      var s, d := PointeeSrc(Forth, src, slot), PointeeDst(Forth, dst, slot);
      var behind := Behind(pointee, slot);
      PointersLead(pointee, s, d, behind);
      PointerRooms(pointee, data.index);
      assert slot.at == AddressOf(data, SlotIndex(pointee, data.index));
      assert behind.index == SlotIndex(pointee, data.index) + SizeOf(pointee, X86_64);
      assert forall x :: AddressOf(behind, x) == AddressOf(data, x);
      var first := PointerMoves(Forth, dst, slot);
      assert |first| == 1 && first[0].value == Address(slot.at);
      assert Pointers(first[1..]) == [] && Pointers(first) == [slot.at];
      assert Moved(Forth, t, src, dst, data) == first + Moved(Forth, pointee, s, d, behind);
      hide Moved, SizeOf, SlotIndex, Slot, Behind, PointerMoves, Rooms, Unshared;
      PointersAppend(first, Moved(Forth, pointee, s, d, behind));
    case ConstantArray(elem, count) =>
      FlatHasNone(t, src, dst, data);
    case Struct(fields, _) => FieldPointersLead(t, |fields|, src, dst, data);
  }

  lemma {:induction false} FieldPointersLead(t: CType, n: nat, src: Place, dst: Place, data: Place)
    requires t.Struct? && Unshared(t) && n <= |t.fields|
    ensures Pointers(FieldsMoved(Forth, t, n, src, dst, data)) == RoomAddresses(FieldRooms(t, n, data.index), data)
    decreases t, 0, n
  {
    hide Moved, Unshared, Rooms, Pointers, RoomAddresses, SizeOf, AlignOf;
    if n == 0 {
      NoPointers();
      assert RoomAddresses([], data) == [];
    } else {
      FieldPointersLead(t, n - 1, src, dst, data);
      UnsharedField(t, n - 1);
      var f := t.fields[n - 1];
      var s, d, p := Field(t, n - 1, I386, src), Field(t, n - 1, X86_64, dst), FieldData(false, t, n - 1, data);
      PointersLead(f, s, d, p);
      SameAddresses(FieldRooms(t, n - 1, data.index), Rooms(f, p.index), data, p);
      PointersAppend(FieldsMoved(Forth, t, n - 1, src, dst, data), Moved(Forth, f, s, d, p));
    }
  }

  lemma {:induction false} UnsharedField(t: CType, i: nat)
    requires t.Struct? && Unshared(t) && i < |t.fields|
    ensures Unshared(t.fields[i])
  {
  }

  /** The data cursor moved along names the same addresses. */
  lemma {:induction false} SameAddresses(a: seq<Room>, b: seq<Room>, data: Place, p: Place)
    requires p.at == AddressOf(data, p.index)
    ensures RoomAddresses(a + b, data) == RoomAddresses(a, data) + RoomAddresses(b, p)
  {
  }

  // ----- reals -----

  /** A `float` or a `double` is moved at its width, with either operand eight bytes too low if it is relative to `rsp`. */
  lemma {:induction false} RealMoved(w: Way, k: Kind, src: Place, dst: Place, data: Place)
    requires k.Float? || k.Double?
    ensures
      var n := if k.Float? then 4 else 8;
      var x, y := Plus(src.at, if src.base.RSP? then -8 else 0), Plus(dst.at, if dst.base.RSP? then -8 else 0);
      Moved(w, Scalar(k), src, dst, data) == [Move(Bits(x, n, n, Zero), y, n)]
    ensures Sound(w, true, Scalar(k), src.base, dst.base) <==> src.base != RSP && dst.base != RSP
  {
    assert Plus(src.at, 0) == src.at && Plus(dst.at, 0) == dst.at;
  }
}
