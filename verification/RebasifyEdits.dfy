/**
 What the edits of the worklist analysis (src/macho-tool/rebasify.cc) amount to: which mov stands where in the new
 section, what each kind of instruction does to the knowledge about the thunk address, and when an edited
 instruction still reads from the address it read from.
 */
module RebasifyEdits {
  import opened Wrappers
  import opened Rebasify

  // ----- the new section -----

  /** A mov of `l` stands before item `k`, with nothing but inserted items between them. */
  ghost predicate MovBefore(c: seq<Item>, j: nat, k: nat, l: Load, limit: nat)
  {
    && j < k < |c|
    && c[j].inst.Some? && c[j].inst.value.cls.Mov? && c[j].inst.value.reg0 == l.reg && c[j].imm == Some(l.imm)
    && forall x :: j <= x < k ==> c[x].id >= limit && c[x].vmaddr == c[k].vmaddr
  }

  predicate IdsBelow(c: seq<Item>, id: nat)
  {
    forall k :: 0 <= k < |c| ==> c[k].id < id
  }

  lemma {:induction false} EditIs(t: Text, m: Met, env: Env)
    ensures
      var k := Index(t.content, m.id);
      Edit(t, m, env) == t ||
      exists l :: k < |t.content| && t.content[k].inst.Some? && Rewrites(m.value, t.content[k].inst.value, env, l) &&
        Edit(t, m, env).content == WithMov(t.content, k, MovItem(t.nextId, t.content[k].vmaddr, l)) &&
        Edit(t, m, env).nextId == t.nextId + 1
  {
    hide Rewrites;
    var k := Index(t.content, m.id);
    if k < |t.content| && t.content[k].inst.Some? && exists l :: Rewrites(m.value, t.content[k].inst.value, env, l) {
      var l :| Rewrites(m.value, t.content[k].inst.value, env, l);
      EditInserts(t, m, env, k, l);
    }
  }

  lemma {:induction false} EditInserts(t: Text, m: Met, env: Env, k: nat, l: Load)
    requires k == Index(t.content, m.id) < |t.content| && t.content[k].inst.Some?
    requires Rewrites(m.value, t.content[k].inst.value, env, l)
    ensures Edit(t, m, env).content == WithMov(t.content, k, MovItem(t.nextId, t.content[k].vmaddr, l))
    ensures Edit(t, m, env).nextId == t.nextId + 1
  {
    forall l' | Rewrites(m.value, t.content[k].inst.value, env, l') ensures l' == l {
    }
    hide Rewrites;
  }

  /** What every edit keeps. */
  ghost predicate Grown(c: seq<Item>, next: nat, c': seq<Item>, next': nat)
  {
    next <= next' && IdsBelow(c', next') &&
    (c' == c || exists k: nat, mov :: IsInsertion(c, k, mov, c') && mov.id >= next && mov.vmaddr == c[k].vmaddr)
  }

  lemma {:induction false} EditGrows(t: Text, m: Met, env: Env)
    requires IdsBelow(t.content, t.nextId)
    ensures Grown(t.content, t.nextId, Edit(t, m, env).content, Edit(t, m, env).nextId)
  {
    hide Edit, Rewrites, Index;
    EditIs(t, m, env);
    var k := Index(t.content, m.id);
    var t' := Edit(t, m, env);
    if t' != t {
      var l :| k < |t.content| && t.content[k].inst.Some? && Rewrites(m.value, t.content[k].inst.value, env, l) &&
        t'.content == WithMov(t.content, k, MovItem(t.nextId, t.content[k].vmaddr, l)) && t'.nextId == t.nextId + 1;
      assert IsInsertion(t.content, k, MovItem(t.nextId, t.content[k].vmaddr, l), t'.content);
    }
  }

  lemma {:induction false} MovStays(c: seq<Item>, q: nat, mov: Item, c': seq<Item>, j: nat, k: nat, l: Load, limit: nat)
    requires MovBefore(c, j, k, l, limit) && IsInsertion(c, q, mov, c')
    requires mov.id >= limit && mov.vmaddr == c[q].vmaddr
    ensures MovBefore(c', if j < q then j else j + 1, if k < q then k else k + 1, l, limit)
    ensures c'[if k < q then k else k + 1] == c[k]
  {
    var j', k' := if j < q then j else j + 1, if k < q then k else k + 1;
    forall x | j' <= x < k' ensures c'[x].id >= limit && c'[x].vmaddr == c'[k'].vmaddr {
      if x != q {
        assert c'[x] == c[if x < q then x else x - 1];
      }
    }
  }

  /** The identities and the place of an item through a run of edits. */
  lemma {:induction false} ReplayGrows(t: Text, trace: seq<Met>, env: Env)
    requires IdsBelow(t.content, t.nextId)
    ensures t.nextId <= Replay(t, trace, env).nextId
    ensures IdsBelow(Replay(t, trace, env).content, Replay(t, trace, env).nextId)
  {
    hide Edit;
    if trace != [] {
      ReplayGrows(t, trace[..|trace| - 1], env);
      EditGrows(Replay(t, trace[..|trace| - 1], env), trace[|trace| - 1], env);
    }
  }

  lemma {:induction false} ItemStays(t: Text, trace: seq<Met>, env: Env, i: Item)
    requires IdsBelow(t.content, t.nextId) && i.id < t.nextId
    requires Index(t.content, i.id) < |t.content| && t.content[Index(t.content, i.id)] == i
    ensures
      var c := Replay(t, trace, env).content;
      Index(c, i.id) < |c| && c[Index(c, i.id)] == i
  {
    hide Edit, Index;
    if trace != [] {
      var front := trace[..|trace| - 1];
      ItemStays(t, front, env, i);
      ReplayGrows(t, front, env);
      var t1 := Replay(t, front, env);
      var t2 := Edit(t1, trace[|trace| - 1], env);
      EditGrows(t1, trace[|trace| - 1], env);
      if t2.content != t1.content {
        var k: nat, mov :| IsInsertion(t1.content, k, mov, t2.content) && mov.id >= t1.nextId &&
          mov.vmaddr == t1.content[k].vmaddr;
        IndexShift(t1.content, k, mov, t2.content, i.id);
        Shifted(t1.content, k, mov, t2.content, Index(t1.content, i.id));
      }
    }
  }

  /** For every visit of an instruction that uses the thunk address, its load stands before the instruction. */
  lemma {:induction false} MovStands(t: Text, trace: seq<Met>, env: Env, i: Item, n: nat, l: Load)
    requires IdsBelow(t.content, t.nextId) && UniqueIds(t.content) && i in t.content && i.inst.Some?
    requires n < |trace| && trace[n].id == i.id && Rewrites(trace[n].value, i.inst.value, env, l)
    ensures
      var c := Replay(t, trace, env).content;
      exists j: nat, k: nat :: MovBefore(c, j, k, l, t.nextId) && c[k] == i
  {
    var k0 :| 0 <= k0 < |t.content| && t.content[k0] == i;
    IndexIs(t.content, k0);
    MovStandsAt(t, trace, env, i, n, l);
  }

  lemma {:induction false} MovStandsAt(t: Text, trace: seq<Met>, env: Env, i: Item, n: nat, l: Load)
    requires IdsBelow(t.content, t.nextId) && i.id < t.nextId && i.inst.Some?
    requires Index(t.content, i.id) < |t.content| && t.content[Index(t.content, i.id)] == i
    requires n < |trace| && trace[n].id == i.id && Rewrites(trace[n].value, i.inst.value, env, l)
    ensures
      var c := Replay(t, trace, env).content;
      exists j: nat, k: nat :: MovBefore(c, j, k, l, t.nextId) && c[k] == i
  {
    hide Edit, Index, Rewrites;
    var front, m := trace[..|trace| - 1], trace[|trace| - 1];
    var t1 := Replay(t, front, env);
    var t2 := Edit(t1, m, env);
    assert Replay(t, trace, env) == t2;
    ReplayGrows(t, front, env);
    if n == |trace| - 1 {
      ItemStays(t, front, env, i);
      var k := Index(t1.content, i.id);
      EditInserts(t1, m, env, k, l);
      assert MovBefore(t2.content, k, k + 1, l, t.nextId) && t2.content[k + 1] == i;
    } else {
      MovStandsAt(t, front, env, i, n, l);
      var j: nat, k: nat :| MovBefore(t1.content, j, k, l, t.nextId) && t1.content[k] == i;
      EditGrows(t1, m, env);
      if t2.content != t1.content {
        var q: nat, mov :| IsInsertion(t1.content, q, mov, t2.content) && mov.id >= t1.nextId &&
          mov.vmaddr == t1.content[q].vmaddr;
        MovStays(t1.content, q, mov, t2.content, j, k, l, t.nextId);
      }
    }
  }

  /** Some visit of the instruction behind it asked for this mov. */
  ghost predicate AskedFor(c: seq<Item>, trace: seq<Met>, env: Env, j: nat, limit: nat)
  {
    exists n: nat, k: nat, l :: n < |trace| && AskedBy(c, trace[n], env, j, k, l, limit)
  }

  /** It asks for the mov at `j` in front of its instruction at `k`. */
  ghost predicate AskedBy(c: seq<Item>, m: Met, env: Env, j: nat, k: nat, l: Load, limit: nat)
  {
    MovBefore(c, j, k, l, limit) && c[k].id == m.id && c[k].inst.Some? && Rewrites(m.value, c[k].inst.value, env, l)
  }

  lemma {:induction false} AskedStays(
    c: seq<Item>, q: nat, mov: Item, c': seq<Item>, trace: seq<Met>, m: Met, env: Env, j: nat, limit: nat)
    requires AskedFor(c, trace, env, j, limit) && IsInsertion(c, q, mov, c')
    requires mov.id >= limit && mov.vmaddr == c[q].vmaddr
    ensures AskedFor(c', trace + [m], env, if j < q then j else j + 1, limit)
  {
    hide Rewrites, IsInsertion, AskedBy, MovBefore;
    var n: nat, k: nat, l :| n < |trace| && AskedBy(c, trace[n], env, j, k, l, limit);
    AskedByStays(c, q, mov, c', trace[n], env, j, k, l, limit);
    assert (trace + [m])[n] == trace[n];
  }

  lemma {:induction false} Ask(
    c: seq<Item>, trace: seq<Met>, env: Env, j: nat, limit: nat, n: nat, k: nat, l: Load)
    requires n < |trace| && AskedBy(c, trace[n], env, j, k, l, limit)
    ensures AskedFor(c, trace, env, j, limit)
  {
  }

  lemma {:induction false} AskedByStays(
    c: seq<Item>, q: nat, mov: Item, c': seq<Item>, m: Met, env: Env, j: nat, k: nat, l: Load, limit: nat)
    requires AskedBy(c, m, env, j, k, l, limit) && IsInsertion(c, q, mov, c')
    requires mov.id >= limit && mov.vmaddr == c[q].vmaddr
    ensures AskedBy(c', m, env, if j < q then j else j + 1, if k < q then k else k + 1, l, limit)
  {
    MovStays(c, q, mov, c', j, k, l, limit);
    hide Rewrites, IsInsertion;
  }

  lemma {:induction false} AskedMore(c: seq<Item>, trace: seq<Met>, m: Met, env: Env, j: nat, limit: nat)
    requires AskedFor(c, trace, env, j, limit)
    ensures AskedFor(c, trace + [m], env, j, limit)
  {
    hide AskedBy;
    var n: nat, k: nat, l :| n < |trace| && AskedBy(c, trace[n], env, j, k, l, limit);
    assert (trace + [m])[n] == trace[n];
  }

  /** Nothing else is inserted. */
  lemma {:induction false} OnlyAsked(t: Text, trace: seq<Met>, env: Env, j: nat)
    requires IdsBelow(t.content, t.nextId)
    requires j < |Replay(t, trace, env).content| && Replay(t, trace, env).content[j].id >= t.nextId
    ensures AskedFor(Replay(t, trace, env).content, trace, env, j, t.nextId)
    decreases |trace|, 0
  {
    hide Edit, Index, Rewrites, AskedFor, MovBefore;
    if trace != [] {
      var front, m := trace[..|trace| - 1], trace[|trace| - 1];
      assert trace == front + [m];
      var t1 := Replay(t, front, env);
      var t2 := Edit(t1, m, env);
      ReplayGrows(t, front, env);
      EditIs(t1, m, env);
      if t2 == t1 {
        OnlyAsked(t, front, env, j);
        AskedMore(t1.content, front, m, env, j, t.nextId);
      } else {
        AskedNow(t, front, m, env, j);
      }
    }
  }

  lemma {:induction false} AskedNow(t: Text, front: seq<Met>, m: Met, env: Env, j: nat)
    requires IdsBelow(t.content, t.nextId)
    requires
      var t1 := Replay(t, front, env);
      var t2 := Edit(t1, m, env);
      t2 != t1 && j < |t2.content| && t2.content[j].id >= t.nextId
    ensures AskedFor(Edit(Replay(t, front, env), m, env).content, front + [m], env, j, t.nextId)
    decreases |front|, 1
  {
    hide Edit, Index, Rewrites, AskedFor;
    var t1 := Replay(t, front, env);
    var t2 := Edit(t1, m, env);
    ReplayGrows(t, front, env);
    EditIs(t1, m, env);
    var q := Index(t1.content, m.id);
    var l :| q < |t1.content| && t1.content[q].inst.Some? && Rewrites(m.value, t1.content[q].inst.value, env, l) &&
      t2.content == WithMov(t1.content, q, MovItem(t1.nextId, t1.content[q].vmaddr, l)) && t2.nextId == t1.nextId + 1;
    var mov := MovItem(t1.nextId, t1.content[q].vmaddr, l);
    assert IsInsertion(t1.content, q, mov, t2.content);
    if j == q {
      assert (front + [m])[|front|] == m && t2.content[q + 1] == t1.content[q];
      assert MovBefore(t2.content, j, q + 1, l, t.nextId);
      Ask(t2.content, front + [m], env, j, t.nextId, |front|, q + 1, l);
    } else {
      var j1 := if j < q then j else j - 1;
      assert t1.content[j1] == t2.content[j];
      OnlyAsked(t, front, env, j1);
      AskedStays(t1.content, q, mov, t2.content, front, m, env, j1, t.nextId);
    }
  }

  // ----- what each kind of instruction does to the knowledge -----

  /** Forms and classes as XED reports them: the frame forms and the copy are movs, a call of zero is a call. */
  predicate Consistent(d: Decoded)
  {
    && (d.form in {StoreFrame, LoadFrame, MovRegReg} ==> d.cls.Mov?)
    && (d.form.PopReg? ==> d.cls.OtherClass?)
    && (d.callZero ==> d.cls.CallNear?)
  }

  predicate InFrame(d: Decoded, v: Value)
  {
    d.base == 6 && v.frame == Some(d.memdisp)
  }

  /** Registers that hold the thunk address from here on. */
  predicate Gains(v: Value, d: Decoded, r: Reg)
  {
    r == d.reg0 &&
    match v.state
    case 1 => d.form.PopReg?
    case 2 => (d.form.LoadFrame? && InFrame(d, v)) || (d.form.MovRegReg? && d.reg1 in v.live)
    case _ => false
  }

  /** A mov, xor or lea to the register, unless it is an edit that could not be completed. */
  ghost predicate Overwrites(v: Value, d: Decoded, env: Env, r: Reg)
  {
    && AsksThunk(v, d) && r == d.reg0 && d.cls in {Mov, Xor, Lea}
    && (d.base in v.live || d.reg1 in v.live ==>
          && env.hasDyldInfo && (d.base in v.live && d.hasDisp ==> d.patchable)
          && exists l :: Rewrites(v, d, env, l))
  }

  /** Registers that are forgotten. */
  ghost predicate Loses(v: Value, d: Decoded, env: Env, r: Reg)
  {
    v.state == 2 && !d.callZero &&
    match d.cls
    case CallNear => r in {1, 2, 3}
    case Ret => true
    case Xor => (d.reg0 == d.reg1 == r) || Overwrites(v, d, env, r)
    case _ => Overwrites(v, d, env, r)
  }

  lemma {:induction false} LiveIff(v: Value, d: Decoded, vmaddr: nat, env: Env, r: Reg)
    requires Consistent(d) && !IsBranch(d) && HandleInst(v, d, vmaddr, env).Some?
    ensures r in HandleInst(v, d, vmaddr, env).value.value.live <==>
            (r in v.live && !Loses(v, d, env, r)) || Gains(v, d, r)
  {
    if AsksThunk(v, d) && (d.base in v.live || d.reg1 in v.live) {
      var l := Load(if d.base in v.live then d.base else d.reg1, UseTarget(v, d));
      assert Rewrites(v, d, env, l) <==> l.imm in env.found;
      forall l' | Rewrites(v, d, env, l') ensures l' == l {
      }
    }
  }

  /** `call 0` starts over, `pop` behind it makes its own address the thunk, `ret` ends it. */
  lemma {:induction false} ProgressIs(v: Value, d: Decoded, vmaddr: nat, env: Env)
    requires Consistent(d) && !IsBranch(d) && HandleInst(v, d, vmaddr, env).Some?
    ensures
      var w := HandleInst(v, d, vmaddr, env).value.value;
      var popped, left := v.state == 1 && d.form.PopReg?, v.state == 2 && d.cls.Ret?;
      && w.state == (if d.callZero then 1 else if popped then 2 else if left then 0 else v.state)
      && w.vmaddr == (if popped then vmaddr else if left then 0 else v.vmaddr)
  {
  }

  /** The frame slot is the last one a register with the thunk address was stored to, until something else is. */
  lemma {:induction false} FrameIs(v: Value, d: Decoded, vmaddr: nat, env: Env)
    requires Consistent(d) && !IsBranch(d) && HandleInst(v, d, vmaddr, env).Some?
    ensures
      var stores := v.state == 2 && d.form.StoreFrame? && d.base == 6;
      HandleInst(v, d, vmaddr, env).value.value.frame ==
      if stores && d.reg0 in v.live then Some(d.memdisp)
      else if (stores && v.frame == Some(d.memdisp)) || (v.state == 2 && d.cls.Ret?) then None
      else v.frame
  {
  }

  /** It aborts only at a call or a use for which a register outside the ones it expects holds the thunk address. */
  lemma {:induction false} AbortsIff(v: Value, d: Decoded, vmaddr: nat, env: Env)
    requires Consistent(d) && !IsBranch(d) && v.state < 3
    ensures HandleInst(v, d, vmaddr, env).None? <==>
            v.state == 2 && !d.callZero &&
            if d.cls.CallNear? then exists r :: r in v.live && r !in {1, 2, 3, 4, 7, 8}
            else AsksThunk(v, d) &&
                 if d.base in v.live then !(1 <= d.base <= 8) else d.reg1 in v.live && !(1 <= d.reg1 <= 8)
  {
  }

  /** `pop r` behind `call 0`: exactly `r` is newly known, to hold the address of the pop. */
  lemma {:induction false} PopAfterCall(v: Value, call: Decoded, pop: Decoded, at: nat, vmaddr: nat, env: Env, r: Reg)
    requires Consistent(call) && Consistent(pop) && call.callZero && pop.form.PopReg?
    ensures
      var e := HandleInst(v, call, at, env);
      e.Some? && e.value.load.None? &&
      var f := HandleInst(e.value.value, pop, vmaddr, env);
      f.Some? && f.value.load.None? &&
      var w := f.value.value;
      w.state == 2 && w.vmaddr == vmaddr && (r in w.live <==> r in v.live || r == pop.reg0)
  {
  }

  // ----- what an edited instruction reads -----

  type Regs = Reg -> nat

  /** base + index * scale + displacement, on 32 bits. */
  function Ea(regs: Regs, base: Reg, index: Option<(Reg, nat)>, disp: int): int
  {
    (regs(base) + (if index.Some? then regs(index.value.0) * index.value.1 else 0) + disp) % 0x1_0000_0000
  }

  function Loaded(regs: Regs, l: Load): Regs
  {
    r => if r == l.reg then l.imm % 0x1_0000_0000 else regs(r)
  }

  /** The displacement of the instruction after the edit. */
  function DispLeft(d: Decoded): int
  {
    if d.hasDisp && d.patchable then 0 else d.memdisp
  }

  predicate HoldsThunk(regs: Regs, v: Value, r: Reg)
  {
    regs(r) == v.vmaddr % 0x1_0000_0000
  }

  /**
   Wherever the base register held the thunk address, the inserted mov and the edited instruction address the same
   byte, whatever the base register holds now, exactly if the displacement could be cleared or there was none.
   */
  lemma {:induction false} AddressKeptIff(
    v: Value, d: Decoded, env: Env, l: Load, index: Option<(Reg, nat)>, before: Regs, after: Regs)
    requires Rewrites(v, d, env, l) && d.base in v.live && HoldsThunk(before, v, d.base)
    requires index.Some? ==> index.value.0 != d.base && after(index.value.0) == before(index.value.0)
    ensures Ea(Loaded(after, l), d.base, index, DispLeft(d)) == Ea(before, d.base, index, d.memdisp) <==>
            (d.hasDisp && d.patchable) || d.memdisp % 0x1_0000_0000 == 0
  {
    var i := if index.Some? then before(index.value.0) * index.value.1 else 0;
    Shift(v.vmaddr, d.memdisp, i, DispLeft(d));
  }

  lemma {:induction false} Shift(vmaddr: nat, disp: int, i: int, left: int)
    requires left == 0 || left == disp
    ensures
      var now, then_ := ((vmaddr + disp) % TWO_64 % 0x1_0000_0000 + i + left) % 0x1_0000_0000,
        (vmaddr % 0x1_0000_0000 + i + disp) % 0x1_0000_0000;
      now == then_ <==> left % 0x1_0000_0000 == 0
  {
    var x := vmaddr + disp;
    assert x % TWO_64 % 0x1_0000_0000 == x % 0x1_0000_0000 by { LowHalf(x); }
    Sums(vmaddr, disp, i, left);
  }

  lemma {:induction false} LowHalf(x: int)
    ensures x % TWO_64 % 0x1_0000_0000 == x % 0x1_0000_0000
  {
    var q, r := x / TWO_64, x % TWO_64;
    assert x == q * 0x1_0000_0000 * 0x1_0000_0000 + r;
    SameRest(r, q * 0x1_0000_0000);
  }

  lemma {:induction false} SameRest(r: int, q: int)
    ensures (q * 0x1_0000_0000 + r) % 0x1_0000_0000 == r % 0x1_0000_0000
  {
  }

  lemma {:induction false} Sums(vmaddr: int, disp: int, i: int, left: int)
    requires left == 0 || left == disp
    ensures
      ((vmaddr + disp) % 0x1_0000_0000 + i + left) % 0x1_0000_0000 ==
      (vmaddr % 0x1_0000_0000 + i + disp) % 0x1_0000_0000
      <==> left % 0x1_0000_0000 == 0
  {
  }

  /** With the base register as its own index, the displacement is counted again for every step of the index. */
  lemma {:induction false} OwnIndexIff(v: Value, d: Decoded, env: Env, l: Load, scale: nat, before: Regs, after: Regs)
    requires Rewrites(v, d, env, l) && d.base in v.live && HoldsThunk(before, v, d.base) && d.hasDisp && d.patchable
    ensures
      var index := Some((d.base, scale));
      Ea(Loaded(after, l), d.base, index, DispLeft(d)) == Ea(before, d.base, index, d.memdisp) <==>
      d.memdisp * scale % 0x1_0000_0000 == 0
  {
    var x, y := v.vmaddr % 0x1_0000_0000, (v.vmaddr + d.memdisp) % 0x1_0000_0000;
    LowHalf(v.vmaddr + d.memdisp);
    assert (Loaded(after, l))(d.base) == y;
    OwnIndex(v.vmaddr, d.memdisp, scale);
  }

  lemma {:induction false} OwnIndex(vmaddr: nat, disp: int, scale: nat)
    ensures
      var x, y := vmaddr % 0x1_0000_0000, (vmaddr + disp) % 0x1_0000_0000;
      (y + y * scale) % 0x1_0000_0000 == (x + x * scale + disp) % 0x1_0000_0000 <==> disp * scale % 0x1_0000_0000 == 0
  {
    var m := 0x1_0000_0000;
    var x, y := vmaddr % m, (vmaddr + disp) % m;
    var p, q := vmaddr / m, (vmaddr + disp) / m;
    assert y == x + disp + (p - q) * m;
    assert y + y * scale == (x + x * scale + disp) + disp * scale + (p - q) * (1 + scale) * m;
    Apart(x + x * scale + disp, disp * scale, (p - q) * (1 + scale));
  }

  lemma {:induction false} Apart(a: int, b: int, k: int)
    ensures (a + b + k * 0x1_0000_0000) % 0x1_0000_0000 == a % 0x1_0000_0000 <==> b % 0x1_0000_0000 == 0
  {
  }

  /** A register operand is read as before unless it is the base register too and the number is another one. */
  lemma {:induction false} OperandKeptIff(v: Value, d: Decoded, env: Env, l: Load, before: Regs, after: Regs)
    requires Rewrites(v, d, env, l) && d.reg1 in v.live && HoldsThunk(before, v, d.reg1)
    requires d.base in v.live && d.base != d.reg1 ==> after(d.reg1) == before(d.reg1)
    ensures Loaded(after, l)(d.reg1) == before(d.reg1) <==> d.base != d.reg1 || d.memdisp % 0x1_0000_0000 == 0
  {
    LowHalf(v.vmaddr + d.memdisp);
    LowHalf(v.vmaddr);
    Apart(v.vmaddr, d.memdisp, 0);
  }

  // ----- an example -----

  /** call 0; pop ebx; mov eax, [ebx + 0x20]: ebx is loaded with the address, and the displacement goes. */
  lemma {:induction false} FirstUse(vmaddr: nat, env: Env)
    requires 5 <= vmaddr && vmaddr + 0x20 < TWO_64 && vmaddr + 0x20 in env.found && env.hasDyldInfo
    ensures
      var call := Decoded(CallNear, OtherForm, 0, 0, 0, 0, false, false, true, None);
      var pop := Decoded(OtherClass, PopReg, 4, 0, 0, 0, false, false, false, None);
      var use := Decoded(Mov, OtherForm, 1, 0, 4, 0x20, true, true, false, None);
      var called, known := Value(1, 0, {}, None), Value(2, vmaddr, {4}, None);
      && HandleInst(INITIAL, call, vmaddr - 5, env) == Some(Keep(called))
      && HandleInst(called, pop, vmaddr, env) == Some(Keep(known))
      && HandleInst(known, use, vmaddr + 1, env) == Some(Effect(known, Some(Load(4, vmaddr + 0x20)), true, true))
  {
    assert INITIAL.live + {4} == {4};
  }
}
