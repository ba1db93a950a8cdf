/**
 The rebase opcode stream (src/core/rebase_info.cc): an interpreter for every opcode, and a writer that uses three
 opcodes a pointer. `segs` are the segment vmaddrs by index and `word` is the size of a pointer.
 */
module Rebase {
  import opened Wrappers
  import opened Images
  import opened Leb128
  import opened Fixups
  import opened Arith

  /** One address the loader must slide. */
  datatype Rebasee = Rebasee(vmaddr: uint64, ty: nibble)

  datatype Opcode =
    | Done
    | SetType(ty: nibble)
    | SetSegOff(seg: nibble, off: uint64)
    | AddAddr(n: uint64)
    | AddScaled(scale: nibble)
    | DoImm(times: nibble)
    | DoUleb(count: uint64)
    | DoAddAddr(n: uint64)
    | DoSkip(count: uint64, skip: uint64)

  datatype Cursor = Cursor(vmaddr: uint64, ty: nibble)

  const START := Cursor(0, 0)

  /** One opcode at `it`, and where the next one starts. */
  function ReadOp(img: bytes, it: nat): (r: Result<(Opcode, nat)>)
    ensures r.Ok? ==> it < r.value.1 <= |img|
  {
    if it >= |img| then Err(PastEnd)
    else
      var imm := img[it] % 16;
      match img[it] / 16
      case 0 => Ok((Done, it + 1))
      case 1 => Ok((SetType(imm), it + 1))
      case 2 => var (n, next) :- ReadUleb(img, it + 1); Ok((SetSegOff(imm, n), next))
      case 3 => var (n, next) :- ReadUleb(img, it + 1); Ok((AddAddr(n), next))
      case 4 => Ok((AddScaled(imm), it + 1))
      case 5 => Ok((DoImm(imm), it + 1))
      case 6 => var (n, next) :- ReadUleb(img, it + 1); Ok((DoUleb(n), next))
      case 7 => var (n, next) :- ReadUleb(img, it + 1); Ok((DoAddAddr(n), next))
      case 8 =>
        var (n, mid) :- ReadUleb(img, it + 1);
        var (skip, next) :- ReadUleb(img, mid);
        Ok((DoSkip(n, skip), next))
      case _ => Err(BadOpcode)
  }

  /** The pointers a run of `count` rebases, `stride` bytes apart. */
  function Run(count: nat, stride: nat, c: Cursor): (r: (Cursor, seq<Rebasee>))
    ensures r.0.ty == c.ty && |r.1| == count
    decreases count
  {
    if count == 0 then (c, [])
    else
      var (c', rest) := Run(count - 1, stride, c.(vmaddr := (c.vmaddr + stride) % TWO_64));
      (c', [Rebasee(c.vmaddr, c.ty)] + rest)
  }

  /** What one opcode does: the cursor after it and the pointers it rebases. */
  function Apply(op: Opcode, c: Cursor, segs: seq<uint64>, word: nat): Result<(Cursor, seq<Rebasee>)>
  {
    match op
    case Done => Ok((c, []))
    case SetType(ty) => Ok((c.(ty := ty), []))
    case SetSegOff(seg, off) =>
      if seg < |segs| then Ok((c.(vmaddr := (off + segs[seg]) % TWO_64), [])) else Err(BadSegment)
    case AddAddr(n) => Ok((c.(vmaddr := (c.vmaddr + n) % TWO_64), []))
    case AddScaled(scale) => Ok((c.(vmaddr := (c.vmaddr + scale * word) % TWO_64), []))
    case DoImm(times) => Ok(Run(times, word, c))
    case DoUleb(count) => Ok(Run(count, word, c))
    case DoAddAddr(n) => Ok((c.(vmaddr := ((c.vmaddr + word) % TWO_64 + n) % TWO_64), [Rebasee(c.vmaddr, c.ty)]))
    case DoSkip(count, skip) => Ok(Run(count, word + skip, c))
  }

  /** The stream from `it` up to `end` or the first DONE. */
  function Interp(img: bytes, it: nat, end: nat, c: Cursor, segs: seq<uint64>, word: nat): Result<seq<Rebasee>>
    decreases if it <= |img| then |img| - it else 0
  {
    if it == end then Ok([])
    else
      match ReadOp(img, it)
      case Err(reason) => Err(reason)
      case Ok((op, next)) =>
        if op.Done? then Ok([])
        else
          match Apply(op, c, segs, word)
          case Err(reason) => Err(reason)
          case Ok((c', out)) => Prefixed(out, Interp(img, next, end, c', segs, word))
  }

  // ----- the parser -----

  class RebaseInfo {
    var rebasees: seq<Rebasee>

    constructor ()
      ensures rebasees == []
    {
      rebasees := [];
    }

    method DoRebase(vmaddr: uint64, ty: nibble, word: nat) returns (next: uint64)
      modifies this
      ensures rebasees == old(rebasees) + [Rebasee(vmaddr, ty)] && next == (vmaddr + word) % TWO_64
    {
      rebasees := rebasees + [Rebasee(vmaddr, ty)];
      next := (vmaddr + word) % TWO_64;
    }

    method DoRebaseTimes(count: uint64, vmaddr: uint64, ty: nibble, word: nat, skipping: uint64)
      returns (next: uint64)
      modifies this
      ensures var (c, out) := Run(count, word + skipping, Cursor(vmaddr, ty));
        next == c.vmaddr && rebasees == old(rebasees) + out
    {
      next := vmaddr;
      var i: nat := 0;
      ghost var stride := word + skipping;
      while i < count
        invariant 0 <= i <= count
        invariant
          var (c, out) := Run(count, stride, Cursor(vmaddr, ty));
          var (c', rest) := Run(count - i, stride, Cursor(next, ty));
          c == c' && old(rebasees) + out == rebasees + rest
      {
        var _ := DoRebase(next, ty, word);
        next := (next + (word + skipping)) % TWO_64;
        i := i + 1;
      }
    }

    /** One pass through the switch: `c` becomes the new `vmaddr` and `type`. */
    method Execute(op: Opcode, c: Cursor, segs: seq<uint64>, word: nat) returns (r: Result<Cursor>)
      modifies this
      ensures match Apply(op, c, segs, word)
        case Err(reason) => r == Err(reason) && rebasees == old(rebasees)
        case Ok((c', out)) => r == Ok(c') && rebasees == old(rebasees) + out
    {
      var vmaddr, ty := c.vmaddr, c.ty;
      match op {
        case Done =>
        case SetType(imm) => ty := imm;
        case SetSegOff(seg, off) =>
          if seg >= |segs| {
            return Err(BadSegment);
          }
          vmaddr := (off + segs[seg]) % TWO_64;
        case AddAddr(n) => vmaddr := (vmaddr + n) % TWO_64;
        case AddScaled(scale) => vmaddr := (vmaddr + scale * word) % TWO_64;
        case DoImm(times) => vmaddr := DoRebaseTimes(times, vmaddr, ty, word, 0);
        case DoUleb(count) => vmaddr := DoRebaseTimes(count, vmaddr, ty, word, 0);
        case DoAddAddr(n) =>
          vmaddr := DoRebase(vmaddr, ty, word);
          vmaddr := (vmaddr + n) % TWO_64;
        case DoSkip(count, skip) => vmaddr := DoRebaseTimes(count, vmaddr, ty, word, skip);
      }
      return Ok(Cursor(vmaddr, ty));
    }

    /** The constructor's loop over the opcode bytes. */
    method Parse(img: bytes, offset: nat, size: nat, segs: seq<uint64>, word: nat) returns (failure: Option<Reason>)
      modifies this
      ensures match Interp(img, offset, offset + size, START, segs, word)
        case Err(reason) => failure == Some(reason)
        case Ok(out) => failure == None && rebasees == old(rebasees) + out
    {
      hide ReadOp, Apply;
      var it, end, c := offset, offset + size, START;
      ghost var out: seq<Rebasee> := [];
      ghost var whole := Interp(img, it, end, c, segs, word);
      PrefixedTwice([], [], whole);
      while it != end
        invariant whole == Prefixed(out, Interp(img, it, end, c, segs, word)) && rebasees == old(rebasees) + out
        decreases if it <= |img| then |img| - it else 0
      {
        var fetched := ReadOp(img, it);
        if fetched.Err? {
          return Some(fetched.reason);
        }
        var (op, next) := fetched.value;
        if op.Done? {
          return None;
        }
        ghost var before := rebasees;
        var executed := Execute(op, c, segs, word);
        if executed.Err? {
          return Some(executed.reason);
        }
        ghost var done := rebasees[|before|..];
        PrefixedTwice(out, done, Interp(img, next, end, executed.value, segs, word));
        out := out + done;
        it, c := next, executed.value;
      }
      return None;
    }
  }

  // ----- run-length forms -----

  function ApplyAll(ops: seq<Opcode>, c: Cursor, segs: seq<uint64>, word: nat): Result<(Cursor, seq<Rebasee>)>
  {
    if ops == [] then Ok((c, []))
    else
      var (c', out) :- Apply(ops[0], c, segs, word);
      var (c'', rest) :- ApplyAll(ops[1..], c', segs, word);
      Ok((c'', out + rest))
  }

  function Repeat(ops: seq<Opcode>, n: nat): seq<Opcode>
  {
    if n == 0 then [] else ops + Repeat(ops, n - 1)
  }

  /** The same program with one rebase an opcode and no scaled or skipping form. */
  function Unrolled(op: Opcode, word: nat): seq<Opcode>
  {
    match op
    case AddScaled(scale) => [AddAddr(scale * word % TWO_64)]
    case DoImm(times) => Repeat([DoImm(1)], times)
    case DoUleb(count) => Repeat([DoImm(1)], count)
    case DoAddAddr(n) => [DoImm(1), AddAddr(n)]
    case DoSkip(count, skip) => Repeat([DoImm(1), AddAddr(skip)], count)
    case _ => [op]
  }

  function UnrolledAll(ops: seq<Opcode>, word: nat): seq<Opcode>
  {
    if ops == [] then [] else Unrolled(ops[0], word) + UnrolledAll(ops[1..], word)
  }

  lemma {:induction false} ApplyAppendErr(a: seq<Opcode>, b: seq<Opcode>, c: Cursor, segs: seq<uint64>, word: nat)
    requires ApplyAll(a, c, segs, word).Err?
    ensures ApplyAll(a + b, c, segs, word) == ApplyAll(a, c, segs, word)
  {
    hide Apply;
    assert (a + b)[1..] == a[1..] + b && (a + b)[0] == a[0];
    if Apply(a[0], c, segs, word).Ok? {
      ApplyAppendErr(a[1..], b, Apply(a[0], c, segs, word).value.0, segs, word);
    }
  }

  lemma {:induction false} ApplyAppend(a: seq<Opcode>, b: seq<Opcode>, c: Cursor, segs: seq<uint64>, word: nat)
    requires ApplyAll(a, c, segs, word).Ok?
    ensures
      var (c', out) := ApplyAll(a, c, segs, word).value;
      ApplyAll(a + b, c, segs, word) ==
        match ApplyAll(b, c', segs, word)
        case Err(reason) => Err(reason)
        case Ok((c'', rest)) => Ok((c'', out + rest))
  {
    hide Apply;
    if a == [] {
      assert a + b == b;
      if ApplyAll(b, c, segs, word).Ok? {
        assert [] + ApplyAll(b, c, segs, word).value.1 == ApplyAll(b, c, segs, word).value.1;
      }
    } else {
      var (c1, out1) := Apply(a[0], c, segs, word).value;
      assert (a + b)[1..] == a[1..] + b && (a + b)[0] == a[0];
      ApplyAppend(a[1..], b, c1, segs, word);
      var (c', out) := ApplyAll(a[1..], c1, segs, word).value;
      if ApplyAll(b, c', segs, word).Ok? {
        assert out1 + (out + ApplyAll(b, c', segs, word).value.1) == out1 + out + ApplyAll(b, c', segs, word).value.1;
      }
    }
  }

  lemma {:induction false} OneRebase(c: Cursor, segs: seq<uint64>, word: nat)
    ensures Apply(DoImm(1), c, segs, word) ==
            Ok((c.(vmaddr := (c.vmaddr + word) % TWO_64), [Rebasee(c.vmaddr, c.ty)]))
    ensures ApplyAll([DoImm(1)], c, segs, word) == Apply(DoImm(1), c, segs, word)
  {
    assert Run(0, word, c.(vmaddr := (c.vmaddr + word) % TWO_64)).1 == [];
    assert [DoImm(1)][1..] == [];
    var out := [Rebasee(c.vmaddr, c.ty)];
    assert out + [] == out;
  }

  lemma {:induction false} OneSkip(skip: uint64, c: Cursor, segs: seq<uint64>, word: nat)
    ensures ApplyAll([DoImm(1), AddAddr(skip)], c, segs, word) ==
            Ok((c.(vmaddr := (c.vmaddr + (word + skip)) % TWO_64), [Rebasee(c.vmaddr, c.ty)]))
  {
    OneRebase(c, segs, word);
    AddWraps(c.vmaddr, word, skip);
    var c1 := c.(vmaddr := (c.vmaddr + word) % TWO_64);
    var c2 := c.(vmaddr := (c.vmaddr + (word + skip)) % TWO_64);
    var ops := [DoImm(1), AddAddr(skip)];
    assert ops[1..] == [AddAddr(skip)] && [AddAddr(skip)][1..] == [];
    assert ApplyAll([AddAddr(skip)], c1, segs, word) == Ok((c2, [] + []));
    var out := [Rebasee(c.vmaddr, c.ty)];
    assert out + ([] + []) == out;
  }

  /** `body` rebases the pointer at the cursor and moves on by `stride`. */
  ghost predicate AdvancesFrom(body: seq<Opcode>, stride: nat, d: Cursor, segs: seq<uint64>, word: nat)
  {
    ApplyAll(body, d, segs, word) == Ok((d.(vmaddr := (d.vmaddr + stride) % TWO_64), [Rebasee(d.vmaddr, d.ty)]))
  }

  ghost predicate Advances(body: seq<Opcode>, stride: nat, segs: seq<uint64>, word: nat)
  {
    forall d: Cursor :: AdvancesFrom(body, stride, d, segs, word)
  }

  /** A run is its body repeated. */
  lemma {:induction false} RunIsRepeat(
    body: seq<Opcode>, n: nat, stride: nat, c: Cursor, segs: seq<uint64>, word: nat)
    requires Advances(body, stride, segs, word)
    ensures ApplyAll(Repeat(body, n), c, segs, word) == Ok(Run(n, stride, c))
    decreases n
  {
    if n > 0 {
      var c' := c.(vmaddr := (c.vmaddr + stride) % TWO_64);
      assert AdvancesFrom(body, stride, c, segs, word);
      hide ApplyAll, Advances;
      RunIsRepeat(body, n - 1, stride, c', segs, word);
      ApplyAppend(body, Repeat(body, n - 1), c, segs, word);
    } else {
      assert ApplyAll([], c, segs, word) == Ok((c, []));
    }
  }

  lemma {:induction false} RebaseAdvances(segs: seq<uint64>, word: nat)
    ensures Advances([DoImm(1)], word, segs, word)
  {
    hide ApplyAll, Apply, Run;
    forall d: Cursor ensures AdvancesFrom([DoImm(1)], word, d, segs, word) {
      OneRebase(d, segs, word);
    }
  }

  lemma {:induction false} SkipAdvances(skip: uint64, segs: seq<uint64>, word: nat)
    ensures Advances([DoImm(1), AddAddr(skip)], word + skip, segs, word)
  {
    hide ApplyAll, Apply, Run;
    var body, stride := [DoImm(1), AddAddr(skip)], word + skip;
    forall d: Cursor ensures AdvancesFrom(body, stride, d, segs, word) {
      OneSkip(skip, d, segs, word);
    }
  }

  /** Run-length, scaled and skipping opcodes mean what their unrolled forms mean. */
  lemma {:induction false} UnrolledSame(op: Opcode, c: Cursor, segs: seq<uint64>, word: nat)
    ensures ApplyAll(Unrolled(op, word), c, segs, word) == Apply(op, c, segs, word)
  {
    hide ApplyAll, Run, Repeat, Advances;
    match op
    case AddScaled(scale) =>
      ApplyOne(AddAddr(scale * word % TWO_64), c, segs, word);
      AddWraps(scale * word, 0, c.vmaddr);
    case DoImm(times) =>
      RebaseAdvances(segs, word);
      RunIsRepeat([DoImm(1)], times, word, c, segs, word);
    case DoUleb(count) =>
      RebaseAdvances(segs, word);
      RunIsRepeat([DoImm(1)], count, word, c, segs, word);
    case DoAddAddr(n) =>
      OneSkip(n, c, segs, word);
      AddWraps(c.vmaddr, word, n);
    case DoSkip(count, skip) =>
      SkipAdvances(skip, segs, word);
      RunIsRepeat([DoImm(1), AddAddr(skip)], count, word + skip, c, segs, word);
    case _ => ApplyOne(op, c, segs, word);
  }

  lemma {:induction false} ApplyOne(op: Opcode, c: Cursor, segs: seq<uint64>, word: nat)
    ensures ApplyAll([op], c, segs, word) == Apply(op, c, segs, word)
  {
    hide Apply;
    assert [op][1..] == [];
    if Apply(op, c, segs, word).Ok? {
      assert Apply(op, c, segs, word).value.1 + [] == Apply(op, c, segs, word).value.1;
    }
  }

  /** A whole program and its unrolled form rebase the same pointers in the same order, or fail alike. */
  lemma {:induction false} UnrolledAllSame(ops: seq<Opcode>, c: Cursor, segs: seq<uint64>, word: nat)
    ensures ApplyAll(UnrolledAll(ops, word), c, segs, word) == ApplyAll(ops, c, segs, word)
  {
    if ops == [] {
    } else {
      hide Apply, Unrolled;
      UnrolledSame(ops[0], c, segs, word);
      if Apply(ops[0], c, segs, word).Ok? {
        var (c', out) := Apply(ops[0], c, segs, word).value;
        UnrolledAllSame(ops[1..], c', segs, word);
        ApplyAppend(Unrolled(ops[0], word), UnrolledAll(ops[1..], word), c, segs, word);
      } else {
        ApplyAppendErr(Unrolled(ops[0], word), UnrolledAll(ops[1..], word), c, segs, word);
      }
    }
  }

  /** The opcodes of a stream. */
  function ReadAll(img: bytes, it: nat, end: nat): Result<seq<Opcode>>
    decreases if it <= |img| then |img| - it else 0
  {
    if it == end then Ok([])
    else
      var (op, next) :- ReadOp(img, it);
      if op.Done? then Ok([])
      else
        var rest :- ReadAll(img, next, end);
        Ok([op] + rest)
  }

  lemma {:induction false} InterpAppliesAll(
    img: bytes, it: nat, end: nat, c: Cursor, segs: seq<uint64>, word: nat, ops: seq<Opcode>)
    requires ReadAll(img, it, end) == Ok(ops)
    ensures Interp(img, it, end, c, segs, word) ==
      match ApplyAll(ops, c, segs, word)
      case Err(reason) => Err(reason)
      case Ok((_, out)) => Ok(out)
    decreases if it <= |img| then |img| - it else 0
  {
    hide Apply, ReadOp;
    if it != end && !ReadOp(img, it).value.0.Done? {
      var (op, next) := ReadOp(img, it).value;
      assert ops[0] == op && ReadAll(img, next, end) == Ok(ops[1..]);
      if Apply(op, c, segs, word).Ok? {
        InterpAppliesAll(img, next, end, Apply(op, c, segs, word).value.0, segs, word, ops[1..]);
      }
    }
  }

  // ----- the writer -----

  /** A rebase node: `target` is the blob it slides, if one was found. */
  datatype Node = Node(ty: nibble, target: Option<Target>) {
    predicate Active() { target.Some? && target.value.active }

    /** `size()`, predicted from file offsets. */
    function Size(): nat {
      if Active() then 3 + |Uleb(target.value.FileOff())| else 0
    }

    /** What `Emit` writes, computed from vmaddrs; a segment id has four bits. */
    function Bytes(): bytes
      requires Active() && target.value.segId < 16
    {
      [0x10 + ty] + [0x20 + target.value.segId] + Uleb(target.value.VmOff()) + [0x51]
    }
  }

  function SizeSum(nodes: seq<Node>): nat
  {
    if nodes == [] then 0 else nodes[0].Size() + SizeSum(nodes[1..])
  }

  /** The space reserved in __LINKEDIT, where `word` is the pointer size. */
  function Reserved(sum: nat, word: nat): nat
    requires word > 0
  {
    AlignUp(if sum > 0 then sum + 1 else 0, word)
  }

  method StreamSize(nodes: seq<Node>, word: nat) returns (size: nat)
    requires word > 0
    ensures size == Reserved(SizeSum(nodes), word)
  {
    size := 0;
    for i := 0 to |nodes|
      invariant size + SizeSum(nodes[i..]) == SizeSum(nodes)
    {
      assert nodes[i..][1..] == nodes[i + 1..];
      size := size + nodes[i].Size();
    }
    if size > 0 {
      size := size + 1;
    }
    size := AlignUp(size, word);
  }

  /** `None` is the failed assertion on the segment id. */
  function EmitNodes(nodes: seq<Node>, data: bytes, off: nat): Option<(bytes, nat)>
    decreases |nodes|
  {
    if nodes == [] then Some((data, off))
    else if !nodes[0].Active() then EmitNodes(nodes[1..], data, off)
    else if nodes[0].target.value.segId >= 16 then None
    else EmitNodes(nodes[1..], Splice(data, off, nodes[0].Bytes()), off + nodes[0].Size())
  }

  function EmitStream(nodes: seq<Node>, data: bytes, off: nat): Option<bytes>
  {
    match EmitNodes(nodes, data, off)
    case None => None
    case Some((out, end)) => Some(if nodes == [] then out else Splice(out, end, [0]))
  }

  method EmitNode(n: Node, img: Image, offset: nat)
    requires n.Active() && n.target.value.segId < 16
    modifies img
    ensures img.data == Splice(old(img.data), offset, n.Bytes())
  {
    hide Splice, Uleb;
    ghost var before, first, second := img.data, [0x10 + n.ty], [0x20 + n.target.value.segId];
    var segoff := n.target.value.VmOff();
    img.Put(offset, 0x10 + n.ty);
    img.Put(offset + 1, 0x20 + n.target.value.segId);
    SpliceConcat(before, offset, first, second);
    var len := Leb128Encode(img, offset + 2, segoff);
    SpliceConcat(before, offset, first + second, Uleb(segoff));
    img.Put(offset + 2 + len, 0x51);
    SpliceConcat(before, offset, first + second + Uleb(segoff), [0x51]);
  }

  method Emit(nodes: seq<Node>, img: Image, offset: nat) returns (ok: bool)
    modifies img
    ensures ok <==> EmitStream(nodes, old(img.data), offset).Some?
    ensures ok ==> EmitStream(nodes, old(img.data), offset) == Some(img.data)
  {
    hide Node.Bytes, Node.Size, Splice;
    var at: nat := offset;
    for i := 0 to |nodes|
      invariant EmitNodes(nodes, old(img.data), offset) == EmitNodes(nodes[i..], img.data, at)
    {
      assert nodes[i..][1..] == nodes[i + 1..];
      if nodes[i].Active() {
        if nodes[i].target.value.segId >= 16 {
          return false;
        }
        EmitNode(nodes[i], img, at);
        at := at + nodes[i].Size();
      }
    }
    if nodes != [] {
      img.Put(at, 0);
    }
    return true;
  }

  // ----- predicted size, emitted size, and reading the stream back -----

  predicate AllInStep(nodes: seq<Node>)
  {
    forall i :: 0 <= i < |nodes| && nodes[i].Active() ==>
      nodes[i].target.value.InStep() && nodes[i].target.value.segId < 16
  }

  function Stream(nodes: seq<Node>): bytes
    requires AllInStep(nodes)
  {
    if nodes == [] then [] else (if nodes[0].Active() then nodes[0].Bytes() else []) + Stream(nodes[1..])
  }

  predicate SomeActive(nodes: seq<Node>)
  {
    exists i :: 0 <= i < |nodes| && nodes[i].Active()
  }

  /** In lockstep the predicted sizes are the emitted ones; some bytes are emitted exactly when a node is active. */
  lemma {:induction false} SizeIsLength(nodes: seq<Node>)
    requires AllInStep(nodes)
    ensures |Stream(nodes)| == SizeSum(nodes)
    ensures SizeSum(nodes) > 0 <==> SomeActive(nodes)
  {
    if nodes == [] {
    } else {
      SizeIsLength(nodes[1..]);
      if nodes[0].Active() {
        assert nodes[0].target.value.FileOff() == nodes[0].target.value.VmOff();
      } else if SomeActive(nodes) {
        var i :| 0 <= i < |nodes| && nodes[i].Active();
        assert nodes[1..][i - 1].Active();
      }
      if SomeActive(nodes[1..]) {
        var i :| 0 <= i < |nodes[1..]| && nodes[1..][i].Active();
        assert nodes[i + 1].Active();
      }
    }
  }

  /** The stream with its DONE fits the space reserved for it exactly when the list is empty or some node is active. */
  lemma {:induction false} StreamFitsIff(nodes: seq<Node>, word: nat)
    requires AllInStep(nodes) && word > 0
    ensures |Stream(nodes)| + (if nodes == [] then 0 else 1) <= Reserved(SizeSum(nodes), word) <==>
            nodes == [] || SomeActive(nodes)
  {
    SizeIsLength(nodes);
    AlignUpIsLeast(0, word);
  }

  lemma {:induction false} StreamStep(nodes: seq<Node>, data: bytes, off: nat)
    requires AllInStep(nodes)
    ensures nodes == [] ==> Stream(nodes) == [] && EmitNodes(nodes, data, off) == Some((data, off))
    ensures nodes != [] ==> AllInStep(nodes[1..]) && (nodes[0].Active() ==> nodes[0].target.value.segId < 16)
    ensures nodes != [] && !nodes[0].Active() ==>
      Stream(nodes) == [] + Stream(nodes[1..]) && EmitNodes(nodes, data, off) == EmitNodes(nodes[1..], data, off)
    ensures nodes != [] && nodes[0].Active() ==>
      var bs := nodes[0].Bytes();
      && bs != [] && Stream(nodes) == bs + Stream(nodes[1..])
      && EmitNodes(nodes, data, off) == EmitNodes(nodes[1..], Splice(data, off, bs), off + |bs|)
  {
    if nodes != [] && nodes[0].Active() {
      assert nodes[0].target.value.FileOff() == nodes[0].target.value.VmOff();
      assert |nodes[0].Bytes()| == nodes[0].Size() && nodes[0].Bytes() != [];
    }
    hide Node.Bytes, Node.Size, Splice;
  }

  lemma {:induction false} EmitNodesStream(nodes: seq<Node>, data: bytes, off: nat)
    requires AllInStep(nodes)
    ensures EmitNodes(nodes, data, off) ==
            Some((if Stream(nodes) == [] then data else Splice(data, off, Stream(nodes)), off + |Stream(nodes)|))
    decreases |nodes|
  {
    hide *;
    StreamStep(nodes, data, off);
    if nodes == [] {
    } else {
      var rest := nodes[1..];
      if nodes[0].Active() {
        var bs := nodes[0].Bytes();
        EmitNodesStream(rest, Splice(data, off, bs), off + |bs|);
        SpliceConcat(data, off, bs, Stream(rest));
        assert bs + [] == bs;
      } else {
        EmitNodesStream(rest, data, off);
        assert [] + Stream(rest) == Stream(rest);
      }
    }
  }

  /** Emit writes one contiguous stream ended by DONE. */
  lemma {:induction false} EmitWritesStream(nodes: seq<Node>, data: bytes, off: nat)
    requires AllInStep(nodes)
    ensures EmitStream(nodes, data, off) ==
            Some(if nodes == [] then data else Splice(data, off, Stream(nodes) + [0]))
  {
    EmitNodesStream(nodes, data, off);
    hide Splice, EmitNodes;
    SpliceConcat(data, off, Stream(nodes), [0]);
    assert [] + [0] == [0];
  }

  /** What the active nodes rebase. */
  function Rebasees(nodes: seq<Node>): seq<Rebasee>
  {
    if nodes == [] then []
    else
      (if nodes[0].Active() then [Rebasee(nodes[0].target.value.loc.vmaddr % TWO_64, nodes[0].ty)] else [])
      + Rebasees(nodes[1..])
  }

  predicate AllSeated(nodes: seq<Node>, segs: seq<uint64>)
  {
    forall i :: 0 <= i < |nodes| && nodes[i].Active() ==> nodes[i].target.value.Seated(segs)
  }

  lemma {:induction false} NodeReadsBack(n: Node, img: bytes, it: nat)
    requires n.Active() && n.target.value.segId < 16 && Has(img, it, n.Bytes())
    ensures |n.Bytes()| >= 4
    ensures ReadOp(img, it) == Ok((SetType(n.ty), it + 1))
    ensures ReadOp(img, it + 1) == Ok((SetSegOff(n.target.value.segId, n.target.value.VmOff()), it + |n.Bytes()| - 1))
    ensures ReadOp(img, it + |n.Bytes()| - 1) == Ok((DoImm(1), it + |n.Bytes()|))
  {
    var t := n.target.value;
    var u, first, second := Uleb(t.VmOff()), [0x10 + n.ty], [0x20 + t.segId];
    hide Uleb, ReadUleb, Has;
    HasParts(img, it, first + second + u, [0x51]);
    HasParts(img, it, first + second, u);
    HasParts(img, it, first, second);
    HasByte(img, it, 0x10 + n.ty);
    HasByte(img, it + 1, 0x20 + t.segId);
    HasByte(img, it + |n.Bytes()| - 1, 0x51);
    ReadBack(img, it + 2, t.VmOff());
  }

  lemma {:induction false} NodeApplies(n: Node, segs: seq<uint64>, c: Cursor, word: nat)
    requires n.Active() && n.target.value.Seated(segs)
    ensures
      var v := n.target.value.loc.vmaddr;
      && Apply(SetType(n.ty), c, segs, word) == Ok((Cursor(c.vmaddr, n.ty), []))
      && Apply(SetSegOff(n.target.value.segId, n.target.value.VmOff()), Cursor(c.vmaddr, n.ty), segs, word) ==
         Ok((Cursor(v, n.ty), []))
      && Apply(DoImm(1), Cursor(v, n.ty), segs, word) ==
         Ok((Cursor((v + word) % TWO_64, n.ty), [Rebasee(v, n.ty)]))
  {
    hide Run;
    OffsetReadsBack(n.target.value, segs);
    OneRebase(Cursor(n.target.value.loc.vmaddr, n.ty), segs, word);
  }

  /** One emitted node read back. */
  lemma {:induction false} InterpNode(
    n: Node, img: bytes, it: nat, end: nat, c: Cursor, segs: seq<uint64>, word: nat) returns (c': Cursor)
    requires n.Active() && n.target.value.Seated(segs)
    requires Has(img, it, n.Bytes()) && it + |n.Bytes()| <= end
    ensures Interp(img, it, end, c, segs, word) ==
            Prefixed([Rebasee(n.target.value.loc.vmaddr, n.ty)],
                     Interp(img, it + |n.Bytes()|, end, c', segs, word))
  {
    hide ReadOp, Apply, Node.Bytes, Has;
    NodeReadsBack(n, img, it);
    NodeApplies(n, segs, c, word);
    var len, v := |n.Bytes()|, n.target.value.loc.vmaddr;
    c' := Cursor((v + word) % TWO_64, n.ty);
    var r3 := Interp(img, it + len, end, c', segs, word);
    var r2 := Interp(img, it + len - 1, end, Cursor(v, n.ty), segs, word);
    var r1 := Interp(img, it + 1, end, Cursor(c.vmaddr, n.ty), segs, word);
    assert r2 == Prefixed([Rebasee(v, n.ty)], r3);
    assert r1 == Prefixed([], r2);
    PrefixedTwice([], [], r2);
    PrefixedTwice([], [], r1);
  }

  lemma {:induction false} InterpDone(img: bytes, it: nat, end: nat, c: Cursor, segs: seq<uint64>, word: nat)
    requires Has(img, it, [0])
    ensures Interp(img, it, end, c, segs, word) == Ok([])
  {
    HasByte(img, it, 0);
  }

  lemma {:induction false} InterpStream(
    nodes: seq<Node>, img: bytes, it: nat, end: nat, c: Cursor, segs: seq<uint64>, word: nat)
    requires AllInStep(nodes) && AllSeated(nodes, segs)
    requires Has(img, it, Stream(nodes) + [0]) && it + |Stream(nodes)| < end
    ensures Interp(img, it, end, c, segs, word) == Ok(Rebasees(nodes))
    decreases |nodes|
  {
    hide Interp, Has, Node.Bytes;
    if nodes == [] {
      assert Stream(nodes) + [0] == [0];
      InterpDone(img, it, end, c, segs, word);
    } else {
      var rest := nodes[1..];
      if nodes[0].Active() {
        var bs := nodes[0].Bytes();
        assert Stream(nodes) + [0] == bs + (Stream(rest) + [0]);
        HasParts(img, it, bs, Stream(rest) + [0]);
        var c' := InterpNode(nodes[0], img, it, end, c, segs, word);
        InterpStream(rest, img, it + |bs|, end, c', segs, word);
      } else {
        assert Stream(nodes) == [] + Stream(rest) == Stream(rest);
        InterpStream(rest, img, it, end, c, segs, word);
        assert [] + Rebasees(rest) == Rebasees(rest);
      }
    }
  }

  /** Reading back what was emitted gives the active nodes, whatever else the file holds. */
  lemma {:induction false} EmittedReadsBack(
    nodes: seq<Node>, data: bytes, off: nat, segs: seq<uint64>, word: nat)
    requires AllInStep(nodes) && AllSeated(nodes, segs) && word > 0
    ensures EmitStream(nodes, data, off).Some?
    ensures Interp(EmitStream(nodes, data, off).value, off, off + Reserved(SizeSum(nodes), word), START, segs, word) ==
            Ok(Rebasees(nodes))
  {
    hide *;
    EmitWritesStream(nodes, data, off);
    if SomeActive(nodes) {
      ActiveReadsBack(nodes, data, off, segs, word);
    } else {
      NoRebasees(nodes);
      SizeIsLength(nodes);
      AlignUpZero(word);
      InterpNone(EmitStream(nodes, data, off).value, off, segs, word);
    }
  }

  lemma {:induction false} ActiveReadsBack(
    nodes: seq<Node>, data: bytes, off: nat, segs: seq<uint64>, word: nat)
    requires AllInStep(nodes) && AllSeated(nodes, segs) && word > 0 && SomeActive(nodes)
    ensures nodes != []
    ensures Interp(Splice(data, off, Stream(nodes) + [0]), off, off + Reserved(SizeSum(nodes), word), START, segs, word)
            == Ok(Rebasees(nodes))
  {
    hide *;
    SomeNode(nodes);
    StreamFitsIff(nodes, word);
    SpliceHas(data, off, Stream(nodes) + [0]);
    InterpStream(nodes, Splice(data, off, Stream(nodes) + [0]), off, off + Reserved(SizeSum(nodes), word), START, segs, word);
  }

  lemma {:induction false} SomeNode(nodes: seq<Node>)
    requires SomeActive(nodes)
    ensures nodes != []
  {
  }

  lemma {:induction false} AlignUpZero(word: nat)
    requires word > 0
    ensures Reserved(0, word) == 0
  {
    AlignUpIsLeast(0, word);
  }

  lemma {:induction false} InterpNone(img: bytes, it: nat, segs: seq<uint64>, word: nat)
    ensures Interp(img, it, it, START, segs, word) == Ok([])
  {
  }

  lemma {:induction false} NoRebasees(nodes: seq<Node>)
    requires !SomeActive(nodes)
    ensures Rebasees(nodes) == []
  {
    if nodes == [] {
    } else {
      assert !nodes[0].Active();
      assert forall i :: 0 <= i < |nodes[1..]| ==> nodes[1..][i] == nodes[i + 1];
      NoRebasees(nodes[1..]);
    }
  }

  /** One active node for each address of `list`. */
  predicate Locates(nodes: seq<Node>, list: seq<Rebasee>)
  {
    && |nodes| == |list|
    && forall i :: 0 <= i < |list| ==>
         nodes[i].Active() && nodes[i].ty == list[i].ty && nodes[i].target.value.loc.vmaddr == list[i].vmaddr
  }

  lemma {:induction false} LocatesRebasees(nodes: seq<Node>, list: seq<Rebasee>)
    requires Locates(nodes, list)
    ensures Rebasees(nodes) == list
  {
    if nodes == [] {
    } else {
      LocatesRebasees(nodes[1..], list[1..]);
      assert list == [list[0]] + list[1..];
    }
  }

  /**
   Normalisation: whatever opcodes a valid program uses, re-emitting its pointers one by one denotes the same
   ordered list of addresses and types.
   */
  lemma {:induction false} ReemissionSame(
    prog: bytes, it: nat, end: nat, segs: seq<uint64>, word: nat, nodes: seq<Node>, data: bytes, off: nat, word': nat)
    requires Interp(prog, it, end, START, segs, word).Ok? && word' > 0
    requires Locates(nodes, Interp(prog, it, end, START, segs, word).value)
    requires AllInStep(nodes) && AllSeated(nodes, segs)
    ensures EmitStream(nodes, data, off).Some?
    ensures Interp(EmitStream(nodes, data, off).value, off, off + Reserved(SizeSum(nodes), word'), START, segs, word') ==
            Interp(prog, it, end, START, segs, word)
  {
    LocatesRebasees(nodes, Interp(prog, it, end, START, segs, word).value);
    EmittedReadsBack(nodes, data, off, segs, word');
  }
}
