/**
 The bind and lazy bind opcode streams (src/core/dyldinfo.cc). The interpreter runs over the whole stream: DONE
 resets it instead of stopping it. `segs` are the segment vmaddrs by index and `word` is the size of a pointer.
 */
module Bind {
  import opened Wrappers
  import opened Arith
  import opened Images
  import opened Leb128
  import opened Fixups

  /** One pointer the loader must bind. */
  datatype Bindee = Bindee(
    vmaddr: uint64, ty: nibble, addend: uint64, dylib: nibble, sym: bytes, flags: nibble, index: uint32)

  datatype Opcode =
    | Done
    | SetOrdinal(imm: nibble)
    | SetSymbol(flags: nibble, pos: nat)
    | SetType(ty: nibble)
    | SetAddend(n: uint64)
    | SetSegOff(seg: nibble, off: uint64)
    | AddAddr(n: uint64)
    | DoBind
    | DoBindAddAddr(n: uint64)
    | DoBindScaled(scale: nibble)
    | DoBindTimes(count: uint64, skip: uint64)

  datatype Cursor = Cursor(
    vmaddr: uint64, ty: nibble, addend: uint64, dylib: nibble, sym: Option<nat>, flags: nibble, index: uint32)

  const START := Cursor(0, 0, 0, 0, None, 0, 0)

  /** strnlen at `it`, bounded by `max`; without a terminator the read leaves the image. */
  function StrNLen(img: bytes, it: nat, max: nat): (r: Result<nat>)
    ensures r.Ok? ==> r.value <= max && (max > 0 ==> it + r.value <= |img|)
    decreases max
  {
    if max == 0 then Ok(0)
    else if it >= |img| then Err(PastEnd)
    else if img[it] == 0 then Ok(0)
    else
      var n :- StrNLen(img, it + 1, max - 1);
      Ok(n + 1)
  }

  /** The C string at `pos`. */
  function CString(img: bytes, pos: nat): Result<bytes>
    decreases if pos <= |img| then |img| - pos else 0
  {
    if pos >= |img| then Err(PastEnd)
    else if img[pos] == 0 then Ok([])
    else
      var rest :- CString(img, pos + 1);
      Ok([img[pos]] + rest)
  }

  lemma {:induction false} NameReads(img: bytes, pos: nat, sym: bytes, max: nat)
    requires Has(img, pos, sym + [0]) && 0 !in sym && |sym| < max
    ensures StrNLen(img, pos, max) == Ok(|sym|) && CString(img, pos) == Ok(sym)
    decreases |sym|
  {
    if sym == [] {
      assert sym + [0] == [0];
      HasByte(img, pos, 0);
    } else {
      assert sym + [0] == [sym[0]] + (sym[1..] + [0]);
      HasParts(img, pos, [sym[0]], sym[1..] + [0]);
      HasByte(img, pos, sym[0]);
      NameReads(img, pos + 1, sym[1..], max - 1);
      assert sym == [sym[0]] + sym[1..];
    }
  }

  /** One opcode at `it`, and where the next one starts. */
  function ReadOp(img: bytes, it: nat, end: nat, lazy: bool): (r: Result<(Opcode, nat)>)
    ensures r.Ok? ==> it < |img| && it < r.value.1
  {
    if it >= |img| then Err(PastEnd)
    else
      var op, imm := img[it] / 16, img[it] % 16;
      if op > 13 || (lazy && (op == 6 || op == 8 || op >= 10)) then Err(BadOpcode)
      else match op
        case 0 => Ok((Done, it + 1))
        case 1 => Ok((SetOrdinal(imm), it + 1))
        case 2 => var (_, next) :- ReadUleb(img, it + 1); Ok((SetOrdinal(imm), next))
        case 3 => Err(Unsupported)
        case 4 =>
          var len :- StrNLen(img, it + 1, (end - (it + 1)) % TWO_64);
          Ok((SetSymbol(imm, it + 1), it + 1 + len + 1))
        case 5 => Ok((SetType(imm), it + 1))
        case 6 => var (n, next) :- ReadUleb(img, it + 1); Ok((SetAddend(n), next))
        case 7 => var (n, next) :- ReadUleb(img, it + 1); Ok((SetSegOff(imm, n), next))
        case 8 => var (n, next) :- ReadUleb(img, it + 1); Ok((AddAddr(n), next))
        case 9 => Ok((DoBind, it + 1))
        case 10 => var (n, next) :- ReadUleb(img, it + 1); Ok((DoBindAddAddr(n), next))
        case 11 => Ok((DoBindScaled(imm), it + 1))
        case 12 =>
          var (count, mid) :- ReadUleb(img, it + 1);
          var (skip, next) :- ReadUleb(img, mid);
          Ok((DoBindTimes(count, skip), next))
        case _ => Err(Unsupported)
  }

  /** do_bind: nothing happens at address zero or before a symbol is set. */
  function BindOne(img: bytes, c: Cursor): Result<seq<Bindee>>
  {
    if c.vmaddr == 0 || c.sym.None? then Ok([])
    else
      var name :- CString(img, c.sym.value);
      Ok([Bindee(c.vmaddr, c.ty, c.addend, c.dylib, name, c.flags, c.index)])
  }

  function Moved(c: Cursor, n: nat): Cursor
  {
    c.(vmaddr := (c.vmaddr + n) % TWO_64)
  }

  /** do_bind_times. */
  function Run(img: bytes, count: nat, c: Cursor, word: nat): Result<(Cursor, seq<Bindee>)>
    decreases count
  {
    if count == 0 then Ok((c, []))
    else
      var first :- BindOne(img, c);
      var (c', rest) :- Run(img, count - 1, Moved(c, word), word);
      Ok((c', first + rest))
  }

  /** What one opcode does; `pos` is the position in the stream after it. */
  function Apply(img: bytes, op: Opcode, pos: nat, c: Cursor, segs: seq<uint64>, word: nat)
    : Result<(Cursor, seq<Bindee>)>
  {
    match op
    case Done => Ok((Cursor(c.vmaddr, 0, 0, 0, c.sym, 0, pos % TWO_32), []))
    case SetOrdinal(imm) => Ok((c.(dylib := imm), []))
    case SetSymbol(flags, at) => Ok((c.(flags := flags, sym := Some(at)), []))
    case SetType(ty) => Ok((c.(ty := ty), []))
    case SetAddend(n) => Ok((c.(addend := n), []))
    case SetSegOff(seg, off) =>
      if seg < |segs| then Ok((c.(vmaddr := (off + segs[seg]) % TWO_64), [])) else Err(BadSegment)
    case AddAddr(n) => Ok((Moved(c, n), []))
    case DoBind => var out :- BindOne(img, c); Ok((Moved(c, word), out))
    case DoBindAddAddr(n) => var out :- BindOne(img, c); Ok((Moved(Moved(c, word), n), out))
    case DoBindScaled(scale) => var out :- BindOne(img, c); Ok((Moved(Moved(c, word), scale * word), out))
    case DoBindTimes(count, skip) =>
      // The skip lands in the index parameter.
      var (c', out) :- Run(img, count, c.(index := skip % TWO_32), word);
      Ok((c'.(index := c.index), out))
  }

  /** The stream that starts at `begin`, from `it` up to `end`. */
  function Interp(img: bytes, begin: nat, it: nat, end: nat, lazy: bool, c: Cursor, segs: seq<uint64>, word: nat)
    : Result<seq<Bindee>>
    requires begin <= it
    decreases if it <= |img| then |img| - it else 0
  {
    if it == end then Ok([])
    else
      match ReadOp(img, it, end, lazy)
      case Err(reason) => Err(reason)
      case Ok((op, next)) =>
        match Apply(img, op, next - begin, c, segs, word)
        case Err(reason) => Err(reason)
        case Ok((c', out)) => Prefixed(out, Interp(img, begin, next, end, lazy, c', segs, word))
  }

  // ----- the parser -----

  class BindInfo {
    var bindees: seq<Bindee>

    constructor ()
      ensures bindees == []
    {
      bindees := [];
    }

    /** do_bind; an unterminated name leaves the image. */
    method Bind(img: bytes, c: Cursor, word: nat) returns (r: Result<uint64>)
      modifies this
      ensures match BindOne(img, c)
        case Err(reason) => r == Err(reason) && bindees == old(bindees)
        case Ok(out) => r == Ok((c.vmaddr + word) % TWO_64) && bindees == old(bindees) + out
    {
      if c.vmaddr != 0 && c.sym.Some? {
        var name := CString(img, c.sym.value);
        if name.Err? {
          return Err(name.reason);
        }
        bindees := bindees + [Bindee(c.vmaddr, c.ty, c.addend, c.dylib, name.value, c.flags, c.index)];
      }
      return Ok((c.vmaddr + word) % TWO_64);
    }

    method BindTimes(img: bytes, count: uint64, c: Cursor, word: nat) returns (r: Result<uint64>)
      modifies this
      ensures match Run(img, count, c, word)
        case Err(reason) => r == Err(reason)
        case Ok((c', out)) => r == Ok(c'.vmaddr) && bindees == old(bindees) + out && c' == c.(vmaddr := r.value)
    {
      hide BindOne;
      var vmaddr := c.vmaddr;
      var i: nat := 0;
      while i < count
        invariant 0 <= i <= count
        invariant
          match Run(img, count - i, c.(vmaddr := vmaddr), word)
          case Err(reason) => Run(img, count, c, word) == Err(reason)
          case Ok((c', rest)) =>
            match Run(img, count, c, word)
            case Err(_) => false
            case Ok((whole, out)) => whole == c' && bindees + rest == old(bindees) + out
      {
        ghost var before, here := bindees, c.(vmaddr := vmaddr);
        var bound := Bind(img, c.(vmaddr := vmaddr), word);
        if bound.Err? {
          return Err(bound.reason);
        }
        RunStep(img, count - i, here, word);
        vmaddr := bound.value;
        i := i + 1;
      }
      return Ok(vmaddr);
    }

    /** One pass through the switch. */
    method Execute(img: bytes, op: Opcode, pos: nat, c: Cursor, segs: seq<uint64>, word: nat) returns (r: Result<Cursor>)
      modifies this
      ensures match Apply(img, op, pos, c, segs, word)
        case Err(reason) => r == Err(reason)
        case Ok((c', out)) => r == Ok(c') && bindees == old(bindees) + out
    {
      hide BindOne, Run;
      match op {
        case Done => return Ok(Cursor(c.vmaddr, 0, 0, 0, c.sym, 0, pos % TWO_32));
        case SetOrdinal(imm) => return Ok(c.(dylib := imm));
        case SetSymbol(flags, at) => return Ok(c.(flags := flags, sym := Some(at)));
        case SetType(ty) => return Ok(c.(ty := ty));
        case SetAddend(n) => return Ok(c.(addend := n));
        case SetSegOff(seg, off) =>
          return if seg < |segs| then Ok(c.(vmaddr := (off + segs[seg]) % TWO_64)) else Err(BadSegment);
        case AddAddr(n) => return Ok(Moved(c, n));
        case DoBind =>
          var next := Bind(img, c, word);
          return if next.Err? then Err(next.reason) else Ok(c.(vmaddr := next.value));
        case DoBindAddAddr(n) =>
          var next := Bind(img, c, word);
          return if next.Err? then Err(next.reason) else Ok(c.(vmaddr := (next.value + n) % TWO_64));
        case DoBindScaled(scale) =>
          var next := Bind(img, c, word);
          return if next.Err? then Err(next.reason) else Ok(c.(vmaddr := (next.value + scale * word) % TWO_64));
        case DoBindTimes(count, skip) =>
          var next := BindTimes(img, count, c.(index := skip % TWO_32), word);
          return if next.Err? then Err(next.reason) else Ok(c.(vmaddr := next.value));
      }
    }

    /** The constructor's loop over the opcode bytes. */
    method Parse(img: bytes, offset: nat, size: nat, lazy: bool, segs: seq<uint64>, word: nat)
      returns (failure: Option<Reason>)
      modifies this
      ensures match Interp(img, offset, offset, offset + size, lazy, START, segs, word)
        case Err(reason) => failure == Some(reason)
        case Ok(out) => failure == None && bindees == old(bindees) + out
    {
      hide ReadOp, Apply;
      var it, end, c := offset, offset + size, START;
      ghost var out: seq<Bindee> := [];
      ghost var whole := Interp(img, offset, it, end, lazy, c, segs, word);
      PrefixedTwice([], [], whole);
      while it != end
        invariant offset <= it && bindees == old(bindees) + out
        invariant whole == Prefixed(out, Interp(img, offset, it, end, lazy, c, segs, word))
        decreases if it <= |img| then |img| - it else 0
      {
        var fetched := ReadOp(img, it, end, lazy);
        if fetched.Err? {
          return Some(fetched.reason);
        }
        var (op, next) := fetched.value;
        ghost var before := bindees;
        var executed := Execute(img, op, next - offset, c, segs, word);
        if executed.Err? {
          return Some(executed.reason);
        }
        ghost var done := bindees[|before|..];
        PrefixedTwice(out, done, Interp(img, offset, next, end, lazy, executed.value, segs, word));
        out := out + done;
        it, c := next, executed.value;
      }
      return None;
    }
  }

  lemma {:induction false} RunStep(img: bytes, count: nat, c: Cursor, word: nat)
    requires count > 0 && BindOne(img, c).Ok?
    ensures Run(img, count, c, word) ==
      match Run(img, count - 1, Moved(c, word), word)
      case Err(reason) => Err(reason)
      case Ok((c', rest)) => Ok((c', BindOne(img, c).value + rest))
  {
  }

  // ----- repeated binds -----

  /** The addresses the opcode stands for: `stride` bytes apart. */
  function Addresses(start: uint64, count: nat, stride: nat): (r: seq<uint64>)
    ensures |r| == count
    decreases count
  {
    if count == 0 then [] else [start] + Addresses((start + stride) % TWO_64, count - 1, stride)
  }

  function BoundAt(out: seq<Bindee>): seq<uint64>
  {
    if out == [] then [] else [out[0].vmaddr] + BoundAt(out[1..])
  }

  /** A run binds consecutive words. */
  lemma {:induction false} RunBinds(img: bytes, count: nat, c: Cursor, word: nat)
    requires Run(img, count, c, word).Ok? && c.sym.Some?
    requires 0 !in Addresses(c.vmaddr, count, word)
    ensures BoundAt(Run(img, count, c, word).value.1) == Addresses(c.vmaddr, count, word)
    decreases count
  {
    if count == 0 {
    } else {
      hide CString;
      assert Addresses(c.vmaddr, count, word)[0] == c.vmaddr;
      var next := Addresses(Moved(c, word).vmaddr, count - 1, word);
      assert 0 !in next;
      RunBinds(img, count - 1, Moved(c, word), word);
      var first, rest := BindOne(img, c).value, Run(img, count - 1, Moved(c, word), word).value.1;
      assert (first + rest)[1..] == rest;
    }
  }

  /**
   DO_BIND_ULEB_TIMES_SKIPPING_ULEB passes its skip where the lazy index belongs, so it binds the addresses it
   stands for exactly when it binds at most one or skips nothing.
   */
  lemma {:induction false} SkipHonouredIff(
    img: bytes, count: uint64, skip: uint64, pos: nat, c: Cursor, segs: seq<uint64>, word: nat)
    requires Apply(img, DoBindTimes(count, skip), pos, c, segs, word).Ok? && c.sym.Some?
    requires 0 !in Addresses(c.vmaddr, count, word)
    ensures (BoundAt(Apply(img, DoBindTimes(count, skip), pos, c, segs, word).value.1) ==
             Addresses(c.vmaddr, count, word + skip)) <==> (count <= 1 || skip == 0)
  {
    RunBinds(img, count, c.(index := skip % TWO_32), word);
    var x, y := Addresses(c.vmaddr, count, word), Addresses(c.vmaddr, count, word + skip);
    if count <= 1 {
    } else if skip != 0 {
      SecondAddress(c.vmaddr, count, word);
      SecondAddress(c.vmaddr, count, word + skip);
    }
  }

  lemma {:induction false} SecondAddress(start: uint64, count: nat, stride: nat)
    requires count > 1
    ensures Addresses(start, count, stride)[1] == (start + stride) % TWO_64
  {
    var next := (start + stride) % TWO_64;
    assert Addresses(next, count - 1, stride)[0] == next;
  }

  // ----- the writer -----

  /** `op | v` on one byte. */
  function Or(op: nat, v: nat, bits: nat): (r: nat)
  {
    if bits == 0 then 0
    else 2 * Or(op / 2, v / 2, bits - 1) + (if op % 2 == 1 || v % 2 == 1 then 1 else 0)
  }

  function OrByte(op: byte, v: nat): (r: byte)
  {
    Or(op, v, 8) % 256
  }

  lemma {:induction false} OrLow(high: nibble, v: nibble)
    ensures OrByte(high * 16, v) == high * 16 + v
  {
    OrZero(high, 4);
    assert Or(high * 16, v, 8) == 16 * Or(high, 0, 4) + v by {
      OrNibble(high, v);
    }
  }

  lemma {:induction false} OrZero(a: nat, bits: nat)
    requires a < Pow2(bits)
    ensures Or(a, 0, bits) == a
  {
    if bits == 0 {
    } else {
      OrZero(a / 2, bits - 1);
    }
  }

  /** An operation byte with its lowest bit clear. */
  lemma {:induction false} OrTop(op: nat, v: nat, bits: nat)
    ensures Or(op * 2, v, bits + 1) == 2 * Or(op, v / 2, bits) + v % 2
  {
  }

  lemma {:induction false} Halves(v: nibble)
    ensures v / 2 / 2 == v / 4 && v / 4 / 2 == v / 8 && v / 8 / 2 == 0
    ensures v == v % 2 + 2 * (v / 2 % 2) + 4 * (v / 4 % 2) + 8 * (v / 8 % 2)
  {
  }

  lemma {:induction false} OrNibble(high: nat, v: nibble)
    ensures Or(high * 16, v, 8) == 16 * Or(high, 0, 4) + v
  {
    hide *;
    Halves(v);
    OrTop(high, v / 8, 4);
    OrTop(high * 2, v / 4, 5);
    OrTop(high * 4, v / 2, 6);
    OrTop(high * 8, v, 7);
  }
}
