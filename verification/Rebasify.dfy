/**
 The worklist analysis of src/macho-tool/rebasify.cc. It follows the address left by `call 0; pop r` through the
 text section and inserts a mov in front of every use, into the list it is walking. List iterators are stable, so
 a position is the identity of an item; registers are numbered as in XED, 0 for none.
 */
module Rebasify {
  import opened Wrappers

  type Reg = nat

  const EAX: Reg := 1
  const ECX: Reg := 2
  const EDX: Reg := 3
  const EBX: Reg := 4
  const EBP: Reg := 6
  const ESI: Reg := 7
  const EDI: Reg := 8

  /** Instruction classes and forms the analysis tells apart. */
  datatype Class = CondJump | Jump | CallNear | Ret | Mov | Xor | Lea | OtherClass

  datatype Form = PopReg | StoreFrame | LoadFrame | MovRegReg | OtherForm

  datatype Decoded = Decoded(
    cls: Class, form: Form, reg0: Reg, reg1: Reg, base: Reg, memdisp: int, hasDisp: bool, patchable: bool,
    callZero: bool, target: Option<nat>)

  /** One element of the section: `inst` is empty for anything but an instruction, `imm` is the number it loads. */
  datatype Item = Item(id: nat, vmaddr: nat, size: nat, inst: Option<Decoded>, imm: Option<nat>)

  /** What the analysis knows at a point: progress, thunk address, registers and frame slot holding it. */
  datatype Value = Value(state: nat, vmaddr: nat, live: set<Reg>, frame: Option<int>)

  const INITIAL := Value(0, 0, {}, None)

  datatype State = State(value: Value, at: Option<nat>)

  /** The archive as the analysis asks it: where a blob can be found, and whether there is a rebase list. */
  datatype Env = Env(found: set<nat>, hasDyldInfo: bool)

  // ----- transfer functions -----

  /** A register and the number to load into it. */
  datatype Load = Load(reg: Reg, imm: nat)

  /** The new value, and what to do to the list: a register to load in front, whether to clear the displacement. */
  datatype Effect = Effect(value: Value, load: Option<Load>, clear: bool, rebase: bool)

  function Keep(v: Value): Effect
  {
    Effect(v, None, false, false)
  }

  predicate IsGpr(r: Reg)
  {
    EAX <= r <= EDI
  }

  function Destroyed(v: Value, d: Decoded): Value
  {
    if d.reg0 in v.live && (d.cls.Mov? || d.cls.Xor? || d.cls.Lea?) then v.(live := v.live - {d.reg0}) else v
  }

  /** The register through which an instruction uses the thunk address. */
  function UsedReg(v: Value, d: Decoded): Option<Reg>
  {
    if d.base in v.live then Some(d.base) else if d.reg1 in v.live then Some(d.reg1) else None
  }

  function UseTarget(v: Value, d: Decoded): nat
  {
    (v.vmaddr + if d.base in v.live then d.memdisp else 0) % TWO_64
  }

  /** handle_inst_thunk; `None` is a failed assertion. */
  function HandleThunk(v: Value, d: Decoded, env: Env): Option<Effect>
  {
    if d.cls.Xor? && d.reg0 == d.reg1 && d.reg0 in v.live then Some(Keep(v.(live := v.live - {d.reg0})))
    else if d.cls.Ret? then Some(Keep(INITIAL))
    else
      match UsedReg(v, d)
      case None => Some(Keep(Destroyed(v, d)))
      case Some(r) =>
        if !IsGpr(r) then None
        else if UseTarget(v, d) !in env.found then Some(Keep(v))
        else
          var load := Load(r, UseTarget(v, d));
          if d.base == r && d.hasDisp && !d.patchable then Some(Effect(v, Some(load), false, false))
          else
            var clear := d.base == r && d.hasDisp;
            if !env.hasDyldInfo then Some(Effect(v, Some(load), clear, false))
            else Some(Effect(Destroyed(v, d), Some(load), clear, true))
  }

  /** handle_inst; `None` is an `abort`. */
  function HandleInst(v: Value, d: Decoded, vmaddr: nat, env: Env): Option<Effect>
  {
    if d.callZero then Some(Keep(v.(state := 1)))
    else if v.state == 0 then Some(Keep(v))
    else if v.state == 1 then
      Some(Keep(if d.form.PopReg? then Value(2, vmaddr, v.live + {d.reg0}, v.frame) else v))
    else if v.state != 2 then None
    else if d.cls.CallNear? then
      if v.live <= {EAX, ECX, EDX, EBX, EDI, ESI} then Some(Keep(v.(live := v.live - {EAX, ECX, EDX}))) else None
    else if d.form.StoreFrame? && d.base == EBP && d.reg0 in v.live then Some(Keep(v.(frame := Some(d.memdisp))))
    else if d.form.StoreFrame? && d.base == EBP && v.frame == Some(d.memdisp) then Some(Keep(v.(frame := None)))
    else if d.form.LoadFrame? && d.base == EBP && v.frame == Some(d.memdisp) then
      Some(Keep(v.(live := v.live + {d.reg0})))
    else if d.form.MovRegReg? && d.reg1 in v.live then Some(Keep(v.(live := v.live + {d.reg0})))
    else HandleThunk(v, d, env)
  }

  /** The instruction inserted to load the address; it shares the vmaddr of the use. */
  function MovItem(id: nat, vmaddr: nat, l: Load): Item
  {
    Item(id, vmaddr, 5, Some(Decoded(Mov, OtherForm, l.reg, 0, 0, 0, false, true, false, None)), Some(l.imm))
  }

  // ----- positions -----

  function Index(content: seq<Item>, id: nat): (k: nat)
    ensures k <= |content| && (k < |content| ==> content[k].id == id)
    ensures forall j :: 0 <= j < k ==> content[j].id != id
  {
    if content == [] || content[0].id == id then 0 else 1 + Index(content[1..], id)
  }

  predicate UniqueIds(content: seq<Item>)
  {
    forall i, j :: 0 <= i < j < |content| ==> content[i].id != content[j].id
  }

  lemma {:induction false} IndexIs(content: seq<Item>, k: nat)
    requires UniqueIds(content) && k < |content|
    ensures Index(content, content[k].id) == k
  {
  }

  function At(content: seq<Item>, k: nat): Option<nat>
  {
    if k < |content| then Some(content[k].id) else None
  }

  /** std::find over the list. */
  function Position(content: seq<Item>, target: Option<nat>): Option<nat>
  {
    if target.Some? then At(content, Index(content, target.value)) else None
  }

  // ----- the edits, stated without the transfer functions -----

  /** One entry of the record of visits: the instruction handled, its address, and what was known there. */
  datatype Met = Met(id: nat, vmaddr: nat, value: Value)

  /** The list and what goes with it: the next free identity, the cleared displacements and the rebase list. */
  datatype Text = Text(content: seq<Item>, nextId: nat, cleared: seq<nat>, rebasees: seq<nat>)

  predicate IsBranch(d: Decoded)
  {
    d.cls.CondJump? || d.cls.Jump?
  }

  /** The thunk address is known, and no rule about calls, the frame slot, copies, zeroing or returns comes first. */
  predicate AsksThunk(v: Value, d: Decoded)
  {
    && v.state == 2 && !IsBranch(d) && !d.callZero && d.cls !in {CallNear, Ret}
    && !(d.form.StoreFrame? && d.base == EBP && (d.reg0 in v.live || v.frame == Some(d.memdisp)))
    && !(d.form.LoadFrame? && d.base == EBP && v.frame == Some(d.memdisp))
    && !(d.form.MovRegReg? && d.reg1 in v.live)
    && !(d.cls.Xor? && d.reg0 == d.reg1 && d.reg0 in v.live)
  }

  /** The load that belongs in front: of the base register if it holds the thunk address, else of the second operand. */
  predicate Rewrites(v: Value, d: Decoded, env: Env, l: Load)
  {
    && AsksThunk(v, d) && l.imm in env.found
    && if d.base in v.live then l.reg == d.base && l.imm == (v.vmaddr + d.memdisp) % TWO_64
       else d.reg1 in v.live && l.reg == d.reg1 && l.imm == v.vmaddr % TWO_64
  }

  /** The displacement is part of the number already. */
  predicate FoldsDisp(d: Decoded, l: Load)
  {
    d.base == l.reg && d.hasDisp
  }

  /** What one visit does to the text. */
  ghost function Edit(t: Text, m: Met, env: Env): Text
  {
    var k := Index(t.content, m.id);
    if k < |t.content| && t.content[k].inst.Some? && exists l :: Rewrites(m.value, t.content[k].inst.value, env, l) then
      var d := t.content[k].inst.value;
      var l :| Rewrites(m.value, d, env, l);
      Text(t.content[..k] + [MovItem(t.nextId, t.content[k].vmaddr, l)] + t.content[k..], t.nextId + 1,
           t.cleared + (if FoldsDisp(d, l) && d.patchable then [m.id] else []),
           t.rebasees + if env.hasDyldInfo && (FoldsDisp(d, l) ==> d.patchable) then [t.nextId] else [])
    else t
  }

  /** What a run of visits does to it. */
  ghost function Replay(t: Text, trace: seq<Met>, env: Env): Text
  {
    if trace == [] then t else Edit(Replay(t, trace[..|trace| - 1], env), trace[|trace| - 1], env)
  }

  lemma {:induction false} ReplaySnoc(t: Text, trace: seq<Met>, m: Met, env: Env)
    ensures Replay(t, trace + [m], env) == Edit(Replay(t, trace, env), m, env)
  {
    assert (trace + [m])[..|trace|] == trace;
    hide Edit;
  }

  /** The transfer function asks for exactly the load that belongs there. */
  lemma {:induction false} LoadIff(v: Value, d: Decoded, vmaddr: nat, env: Env, l: Load)
    requires !IsBranch(d) && HandleInst(v, d, vmaddr, env).Some?
    ensures
      var e := HandleInst(v, d, vmaddr, env).value;
      && (e.load == Some(l) <==> Rewrites(v, d, env, l))
      && (Rewrites(v, d, env, l) ==>
          && (e.clear <==> FoldsDisp(d, l) && d.patchable)
          && (e.rebase <==> env.hasDyldInfo && (FoldsDisp(d, l) ==> d.patchable)))
      && (e.load.None? ==> !e.clear)
  {
  }

  /** Applying the effect is the edit. */
  lemma {:induction false} EffectIsEdit(t: Text, k: nat, v: Value, env: Env)
    requires UniqueIds(t.content) && k < |t.content| && t.content[k].inst.Some? && !IsBranch(t.content[k].inst.value)
    requires HandleInst(v, t.content[k].inst.value, t.content[k].vmaddr, env).Some?
    ensures
      var i := t.content[k];
      var e := HandleInst(v, i.inst.value, i.vmaddr, env).value;
      var t' := if e.load.None? then t else
        Text(WithMov(t.content, k, MovItem(t.nextId, i.vmaddr, e.load.value)), t.nextId + 1,
             t.cleared + (if e.clear then [i.id] else []), t.rebasees + if e.rebase then [t.nextId] else []);
      Edit(t, Met(i.id, i.vmaddr, v), env) == t' && (e.load.None? ==> !e.clear)
  {
    var i := t.content[k];
    var d := i.inst.value;
    var e := HandleInst(v, d, i.vmaddr, env).value;
    IndexIs(t.content, k);
    hide HandleInst, Rewrites, UniqueIds;
    LoadIff(v, d, i.vmaddr, env, Load(0, 0));
    forall l ensures e.load == Some(l) <==> Rewrites(v, d, env, l) {
      LoadIff(v, d, i.vmaddr, env, l);
    }
    if e.load.Some? {
      LoadIff(v, d, i.vmaddr, env, e.load.value);
    }
  }

  lemma {:induction false} BranchEditsNothing(t: Text, k: nat, v: Value, env: Env)
    requires UniqueIds(t.content) && k < |t.content| && t.content[k].inst.Some? && IsBranch(t.content[k].inst.value)
    ensures Edit(t, Met(t.content[k].id, t.content[k].vmaddr, v), env) == t
  {
    IndexIs(t.content, k);
  }

  // ----- where values flow, by address -----

  /** The address of the first instruction at or behind item `k`. */
  function Lands(content: seq<Item>, k: nat): Option<nat>
    decreases |content| - k
  {
    if k >= |content| then None
    else if content[k].inst.Some? then Some(content[k].vmaddr)
    else Lands(content, k + 1)
  }

  /** Control can pass from a visit to the instruction at `a`, and `v` is what is known then. */
  predicate Goes(content: seq<Item>, m: Met, env: Env, v: Value, a: nat)
  {
    var k := Index(content, m.id);
    && k < |content| && content[k].inst.Some?
    && var d := content[k].inst.value;
       if IsBranch(d) then
         && v == m.value
         && (Lands(content, k + 1) == Some(a) ||
             (d.target.Some? && Lands(content, Index(content, d.target.value)) == Some(a)))
       else
         var e := HandleInst(m.value, d, m.vmaddr, env);
         e.Some? && v == e.value.value && Lands(content, k + 1) == Some(a)
  }

  predicate Begins(content: seq<Item>, v: Value, a: nat)
  {
    v == INITIAL && Lands(content, 0) == Some(a)
  }

  /** The value arrives at the address from the beginning or from one of the visits. */
  ghost predicate Arrives(content: seq<Item>, trace: seq<Met>, env: Env, v: Value, a: nat)
  {
    Begins(content, v, a) || exists m :: m in trace && Goes(content, m, env, v, a)
  }

  predicate Seen(trace: seq<Met>, v: Value, a: nat)
  {
    exists n :: 0 <= n < |trace| && trace[n].value == v && trace[n].vmaddr == a
  }

  function Where(content: seq<Item>, s: State): Option<nat>
  {
    if s.at.None? then None else Lands(content, Index(content, s.at.value))
  }

  predicate Pending(content: seq<Item>, states: seq<State>, v: Value, a: nat)
  {
    exists s :: s in states && s.value == v && Where(content, s) == Some(a)
  }

  /** Every value that arrives somewhere was seen there or is waiting. */
  ghost predicate Closed(content: seq<Item>, states: seq<State>, trace: seq<Met>, env: Env)
  {
    forall v, a: nat :: Arrives(content, trace, env, v, a) ==> Seen(trace, v, a) || Pending(content, states, v, a)
  }

  /** Every visit was of a value that arrived there from the visits before. */
  ghost predicate Grounded(content: seq<Item>, trace: seq<Met>, env: Env)
  {
    forall n :: 0 <= n < |trace| ==> Arrives(content, trace[..n], env, trace[n].value, trace[n].vmaddr)
  }

  ghost predicate Awaited(content: seq<Item>, states: seq<State>, trace: seq<Met>, env: Env)
  {
    forall v, a: nat :: Pending(content, states, v, a) ==> Arrives(content, trace, env, v, a)
  }

  /** A branch, or an instruction the transfer function does not abort at. */
  predicate Handles(v: Value, i: Item, env: Env)
  {
    i.inst.Some? && (IsBranch(i.inst.value) || HandleInst(v, i.inst.value, i.vmaddr, env).Some?)
  }

  /** The visits were of instructions of the list, and none of them aborted. */
  predicate Known(content: seq<Item>, trace: seq<Met>, env: Env)
  {
    forall n :: 0 <= n < |trace| ==>
      var k := Index(content, trace[n].id);
      k < |content| && content[k].vmaddr == trace[n].vmaddr && Handles(trace[n].value, content[k], env)
  }

  predicate Below(i: Item, nextId: nat)
  {
    i.id < nextId && (i.inst.Some? && i.inst.value.target.Some? ==> i.inst.value.target.value < nextId)
  }

  predicate TargetsBelow(content: seq<Item>, nextId: nat)
  {
    forall k :: 0 <= k < |content| ==> Below(content[k], nextId)
  }

  ghost predicate Flow(content: seq<Item>, states: seq<State>, trace: seq<Met>, env: Env, nextId: nat)
  {
    && Closed(content, states, trace, env) && Grounded(content, trace, env) && Awaited(content, states, trace, env)
    && Known(content, trace, env) && TargetsBelow(content, nextId)
  }

  /** At the end the visits are exactly the values that arrive, each from visits before it. */
  ghost predicate Settled(content: seq<Item>, trace: seq<Met>, env: Env)
  {
    && (forall v, a: nat :: Arrives(content, trace, env, v, a) <==> Seen(trace, v, a))
    && Grounded(content, trace, env) && Known(content, trace, env)
  }

  /** A value arrives at an instruction that aborts on it. */
  ghost predicate Fails(content: seq<Item>, trace: seq<Met>, env: Env)
  {
    exists k, v :: 0 <= k < |content| && content[k].inst.Some? && !Handles(v, content[k], env) &&
      Arrives(content, trace, env, v, content[k].vmaddr)
  }

  // ----- the termination measure -----

  /** How many steps a state can take before it leaves the list, plus one. */
  function Steps(content: seq<Item>, s: State): nat
  {
    if s.at.None? then 1 else |content| - Index(content, s.at.value) + 1
  }

  function TotalSteps(content: seq<Item>, states: seq<State>): nat
  {
    if states == [] then 0 else Steps(content, states[0]) + TotalSteps(content, states[1..])
  }

  lemma {:induction false} TotalStepsAppend(content: seq<Item>, a: seq<State>, b: seq<State>)
    ensures TotalSteps(content, a + b) == TotalSteps(content, a) + TotalSteps(content, b)
  {
    if a == [] {
      assert a + b == b;
    } else {
      assert (a + b)[1..] == a[1..] + b;
      TotalStepsAppend(content, a[1..], b);
    }
  }

  /** The finite set of everything the analysis can ever record. */
  datatype Bounds = Bounds(vmaddrs: set<nat>, regs: set<Reg>, frames: set<Option<int>>)

  ghost predicate ValueWithin(v: Value, b: Bounds)
  {
    v.state < 3 && v.vmaddr in b.vmaddrs && v.live <= b.regs && v.frame in b.frames
  }

  predicate ItemWithin(i: Item, b: Bounds)
  {
    i.vmaddr in b.vmaddrs && (i.inst.Some? ==> i.inst.value.reg0 in b.regs && Some(i.inst.value.memdisp) in b.frames)
  }

  ghost function Subsets(s: set<Reg>): (r: set<set<Reg>>)
    ensures forall t :: t in r <==> t <= s
  {
    set t | t <= s
  }

  ghost function Universe(b: Bounds): (u: set<(nat, Value)>)
    ensures forall vm, v :: (vm, v) in u <==> vm in b.vmaddrs && ValueWithin(v, b)
  {
    set vm, n, a, l, f | vm in b.vmaddrs && n in {0, 1, 2} && a in b.vmaddrs && l in Subsets(b.regs) && f in b.frames ::
      (vm, Value(n, a, l, f))
  }

  lemma {:induction false} HandleInstWithin(v: Value, i: Item, env: Env, b: Bounds)
    requires ValueWithin(v, b) && ItemWithin(i, b) && i.inst.Some? && 0 in b.vmaddrs && None in b.frames
    requires HandleInst(v, i.inst.value, i.vmaddr, env).Some?
    ensures var e := HandleInst(v, i.inst.value, i.vmaddr, env).value;
      ValueWithin(e.value, b) && (e.load.Some? ==> e.load.value.reg in b.regs)
  {
  }

  // ----- coverage -----

  /** An item nobody has to arrive at any more: its address was visited, or it was passed over. */
  predicate Done(i: Item, seen: set<nat>, passed: set<nat>)
  {
    i.vmaddr in seen || i.id in passed
  }

  predicate Pointed(states: seq<State>, id: nat)
  {
    exists s :: s in states && s.at == Some(id)
  }

  /** Behind every item that is done comes one that is done or about to be reached. */
  ghost predicate Chain(content: seq<Item>, states: seq<State>, seen: set<nat>, passed: set<nat>)
  {
    && (content != [] ==> Done(content[0], seen, passed) || Pointed(states, content[0].id))
    && forall k :: 0 <= k && k + 1 < |content| && Done(content[k], seen, passed) ==>
         Done(content[k + 1], seen, passed) || Pointed(states, content[k + 1].id)
  }

  /** An item without bytes at the address of an instruction stands before it. */
  ghost predicate Grouped(content: seq<Item>)
  {
    forall j, k :: 0 <= j < |content| && 0 <= k < |content| && SameSpot(content[j], content[k]) ==>
      j + 1 < |content| && content[j + 1].vmaddr == content[j].vmaddr
  }

  predicate SameSpot(i: Item, inst: Item)
  {
    i.inst.None? && inst.inst.Some? && i.vmaddr == inst.vmaddr
  }

  predicate Original(i: Item, limit: nat)
  {
    i.inst.Some? && i.id < limit
  }

  /** No two original instructions have the same address. */
  ghost predicate OwnAddress(content: seq<Item>, limit: nat)
  {
    forall j, k :: 0 <= j < k < |content| && Original(content[j], limit) && Original(content[k], limit) ==>
      content[j].vmaddr != content[k].vmaddr
  }

  ghost predicate OnlyInstsInserted(content: seq<Item>, limit: nat)
  {
    forall k :: 0 <= k < |content| && content[k].id >= limit ==> content[k].inst.Some?
  }

  /** What a parsed section looks like, and stays like; `limit` is the first identity of an inserted item. */
  ghost predicate Tidy(content: seq<Item>, limit: nat)
  {
    UniqueIds(content) && Grouped(content) && OwnAddress(content, limit) && OnlyInstsInserted(content, limit)
  }

  /** Inserted items stand at visited addresses, and no instruction is merely passed over. */
  ghost predicate Progressed(content: seq<Item>, limit: nat, seen: set<nat>, passed: set<nat>)
  {
    forall k :: 0 <= k < |content| ==>
      && (content[k].id >= limit ==> content[k].vmaddr in seen)
      && (content[k].id in passed ==> content[k].inst.None?)
  }

  lemma {:induction false} AllDone(content: seq<Item>, seen: set<nat>, passed: set<nat>, k: nat)
    requires Chain(content, [], seen, passed) && k < |content|
    ensures Done(content[k], seen, passed)
  {
    if k == 0 {
    } else {
      AllDone(content, seen, passed, k - 1);
    }
  }

  lemma {:induction false} DropState(
    content: seq<Item>, s: State, rest: seq<State>, seen: set<nat>, passed: set<nat>)
    requires Chain(content, [s] + rest, seen, passed)
    requires s.at.Some? ==>
      forall k :: 0 <= k < |content| && content[k].id == s.at.value ==> Done(content[k], seen, passed)
    ensures Chain(content, rest, seen, passed)
  {
    forall k | 0 <= k < |content| && Pointed([s] + rest, content[k].id)
      ensures Done(content[k], seen, passed) || Pointed(rest, content[k].id)
    {
      var t :| t in [s] + rest && t.at == Some(content[k].id);
    }
  }

  /** `states'` keeps the states behind `s` and points behind item `k`. */
  ghost predicate MovesOn(content: seq<Item>, k: nat, rest: seq<State>, states': seq<State>)
  {
    (forall t :: t in rest ==> t in states') && (k + 1 < |content| ==> Pointed(states', content[k + 1].id))
  }

  lemma {:induction false} StillPointed(s: State, rest: seq<State>, states': seq<State>, id: nat)
    requires Pointed([s] + rest, id) && s.at != Some(id) && forall t :: t in rest ==> t in states'
    ensures Pointed(states', id)
  {
    var t :| t in [s] + rest && t.at == Some(id);
    assert t in states';
  }

  lemma {:induction false} PassItem(
    content: seq<Item>, k: nat, s: State, rest: seq<State>, states': seq<State>, seen: set<nat>, passed: set<nat>,
    limit: nat)
    requires Tidy(content, limit) && Chain(content, [s] + rest, seen, passed)
    requires k < |content| && s.at == Some(content[k].id) && MovesOn(content, k, rest, states')
    ensures Chain(content, states', seen, passed + {content[k].id})
  {
    var passed' := passed + {content[k].id};
    forall j | 0 <= j < |content| && Pointed([s] + rest, content[j].id)
      ensures Done(content[j], seen, passed') || Pointed(states', content[j].id)
    {
      if j != k {
        StillPointed(s, rest, states', content[j].id);
      }
    }
  }

  lemma {:induction false} VisitItem(
    content: seq<Item>, k: nat, s: State, rest: seq<State>, states': seq<State>, seen: set<nat>, passed: set<nat>,
    limit: nat)
    requires Tidy(content, limit) && Progressed(content, limit, seen, passed) && Chain(content, [s] + rest, seen, passed)
    requires k < |content| && content[k].inst.Some?
    requires s.at == Some(content[k].id) && MovesOn(content, k, rest, states')
    ensures Chain(content, states', seen + {content[k].vmaddr}, passed)
    ensures Progressed(content, limit, seen + {content[k].vmaddr}, passed)
  {
    var v := content[k].vmaddr;
    var seen' := seen + {v};
    forall j | 0 <= j < |content| && Pointed([s] + rest, content[j].id)
      ensures Done(content[j], seen', passed) || Pointed(states', content[j].id)
    {
      if j != k {
        StillPointed(s, rest, states', content[j].id);
      }
    }
    forall j | 0 <= j && j + 1 < |content| && Done(content[j], seen', passed)
      ensures Done(content[j + 1], seen', passed) || Pointed(states', content[j + 1].id)
    {
      if !Done(content[j], seen, passed) && j != k {
        assert content[j].vmaddr == v && content[j].inst.None? && SameSpot(content[j], content[k]);
      }
    }
  }

  function WithMov(content: seq<Item>, k: nat, mov: Item): seq<Item>
    requires k <= |content|
  {
    content[..k] + [mov] + content[k..]
  }

  lemma {:induction false} InsertMov(
    content: seq<Item>, k: nat, mov: Item, states: seq<State>, seen: set<nat>, passed: set<nat>, limit: nat)
    requires k < |content| && content[k].inst.Some? && mov.inst.Some? && mov.vmaddr == content[k].vmaddr && mov.vmaddr in seen
    requires mov.id >= limit && mov.id !in passed && forall j :: 0 <= j < |content| ==> content[j].id != mov.id
    requires Tidy(content, limit) && Progressed(content, limit, seen, passed) && Chain(content, states, seen, passed)
    ensures Tidy(WithMov(content, k, mov), limit)
    ensures Progressed(WithMov(content, k, mov), limit, seen, passed)
    ensures Chain(WithMov(content, k, mov), states, seen, passed)
  {
    hide Tidy, Chain, Done, Pointed;
    var c := WithMov(content, k, mov);
    assert IsInsertion(content, k, mov, c);
    InsertTidy(content, k, mov, c, limit);
    InsertChain(content, k, mov, c, states, seen, passed);
  }

  ghost predicate IsInsertion(content: seq<Item>, k: nat, mov: Item, c: seq<Item>)
  {
    && k < |content| && |c| == |content| + 1 && c[k] == mov
    && (forall j :: 0 <= j < k ==> c[j] == content[j])
    && (forall j :: k < j < |c| ==> c[j] == content[j - 1])
  }

  lemma {:induction false} InsertGrouped(content: seq<Item>, k: nat, mov: Item, c: seq<Item>)
    requires IsInsertion(content, k, mov, c) && Grouped(content)
    requires content[k].inst.Some? && mov.inst.Some? && mov.vmaddr == content[k].vmaddr
    ensures Grouped(c)
  {
    forall i, j | 0 <= i < |c| && 0 <= j < |c| && SameSpot(c[i], c[j])
      ensures i + 1 < |c| && c[i + 1].vmaddr == c[i].vmaddr
    {
      var i' := if i < k then i else i - 1;
      var j' := if j <= k then j else j - 1;
      assert content[i'] == c[i] && SameSpot(content[i'], content[j']);
      assert content[i' + 1].vmaddr == content[i'].vmaddr;
      if i + 1 < k {
        assert c[i + 1] == content[i + 1];
      } else if i > k {
        assert c[i + 1] == content[i];
      }
    }
  }

  lemma {:induction false} InsertOwnAddress(content: seq<Item>, k: nat, mov: Item, c: seq<Item>, limit: nat)
    requires IsInsertion(content, k, mov, c) && OwnAddress(content, limit) && mov.id >= limit
    ensures OwnAddress(c, limit)
  {
    forall i, j | 0 <= i < j < |c| && Original(c[i], limit) && Original(c[j], limit) ensures c[i].vmaddr != c[j].vmaddr {
      assert c[i] == content[if i < k then i else i - 1] && c[j] == content[if j < k then j else j - 1];
    }
  }

  lemma {:induction false} InsertUnique(content: seq<Item>, k: nat, mov: Item, c: seq<Item>, limit: nat)
    requires IsInsertion(content, k, mov, c) && UniqueIds(content) && OnlyInstsInserted(content, limit)
    requires mov.inst.Some? && forall j :: 0 <= j < |content| ==> content[j].id != mov.id
    ensures UniqueIds(c) && OnlyInstsInserted(c, limit)
  {
    forall i, j | 0 <= i < j < |c| ensures c[i].id != c[j].id {
      if i != k && j != k {
        assert c[i] == content[if i < k then i else i - 1] && c[j] == content[if j < k then j else j - 1];
      }
    }
  }

  lemma {:induction false} InsertTidy(content: seq<Item>, k: nat, mov: Item, c: seq<Item>, limit: nat)
    requires IsInsertion(content, k, mov, c) && Tidy(content, limit)
    requires content[k].inst.Some? && mov.inst.Some? && mov.vmaddr == content[k].vmaddr && mov.id >= limit
    requires forall j :: 0 <= j < |content| ==> content[j].id != mov.id
    ensures Tidy(c, limit)
  {
    hide Grouped, OwnAddress, UniqueIds, OnlyInstsInserted, IsInsertion;
    InsertGrouped(content, k, mov, c);
    InsertOwnAddress(content, k, mov, c, limit);
    InsertUnique(content, k, mov, c, limit);
  }

  lemma {:induction false} InsertChain(
    content: seq<Item>, k: nat, mov: Item, c: seq<Item>, states: seq<State>, seen: set<nat>, passed: set<nat>)
    requires IsInsertion(content, k, mov, c) && Chain(content, states, seen, passed)
    requires mov.vmaddr == content[k].vmaddr && mov.vmaddr in seen
    ensures Chain(c, states, seen, passed)
  {
    forall j | 0 <= j && j + 1 < |c| && Done(c[j], seen, passed)
      ensures Done(c[j + 1], seen, passed) || Pointed(states, c[j + 1].id)
    {
      if j + 1 < k {
        assert Done(content[j], seen, passed);
      } else if j > k {
        assert c[j] == content[j - 1] && c[j + 1] == content[j];
      }
    }
  }

  // ----- the worklist loop -----

  ghost function SeenPairs(visited: map<nat, seq<Value>>): set<(nat, Value)>
  {
    set vm, v | vm in visited && v in visited[vm] :: (vm, v)
  }

  function Record(visited: map<nat, seq<Value>>, vm: nat, v: Value): map<nat, seq<Value>>
  {
    visited[vm := (if vm in visited then visited[vm] else []) + [v]]
  }

  /** What is left to see. */
  ghost function Unseen(b: Bounds, visited: map<nat, seq<Value>>): nat
  {
    |Universe(b) - SeenPairs(visited)|
  }

  lemma {:induction false} RecordShrinks(b: Bounds, visited: map<nat, seq<Value>>, vm: nat, v: Value)
    requires vm in b.vmaddrs && ValueWithin(v, b) && (vm in visited ==> v !in visited[vm])
    ensures Unseen(b, Record(visited, vm, v)) < Unseen(b, visited)
  {
    var u, s, s' := Universe(b), SeenPairs(visited), SeenPairs(Record(visited, vm, v));
    hide Universe, ValueWithin;
    forall w, x | (w, x) in s ensures (w, x) in s' {
      assert x in Record(visited, vm, v)[w];
    }
    assert v in Record(visited, vm, v)[vm];
    assert (vm, v) in u - s && (vm, v) !in u - s';
    Smaller(u - s', u - s, (vm, v));
  }

  lemma {:induction false} Smaller<T>(a: set<T>, b: set<T>, x: T)
    requires a <= b && x in b && x !in a
    ensures |a| < |b|
  {
    NoLarger(a, b - {x});
  }

  lemma {:induction false} NoLarger<T>(a: set<T>, b: set<T>)
    requires a <= b
    ensures |a| <= |b|
  {
    if a != {} {
      var x :| x in a;
      NoLarger(a - {x}, b - {x});
    }
  }

  ghost predicate StateWithin(s: State, content: seq<Item>, b: Bounds)
  {
    ValueWithin(s.value, b) && (s.at.Some? ==> Index(content, s.at.value) < |content|)
  }

  ghost predicate StatesWithin(states: seq<State>, content: seq<Item>, b: Bounds)
  {
    forall s :: s in states ==> StateWithin(s, content, b)
  }

  ghost predicate ContentWithin(content: seq<Item>, b: Bounds, nextId: nat)
  {
    forall k :: 0 <= k < |content| ==> ItemWithin(content[k], b) && content[k].id < nextId
  }

  ghost predicate BoundsOk(b: Bounds)
  {
    0 in b.vmaddrs && None in b.frames && Some(0) in b.frames
  }

  /** The items of the original section, in order. */
  function Originals(content: seq<Item>, limit: nat): seq<Item>
  {
    if content == [] then [] else (if content[0].id < limit then [content[0]] else []) + Originals(content[1..], limit)
  }

  lemma {:induction false} OriginalsInsert(content: seq<Item>, k: nat, mov: Item, limit: nat)
    requires k <= |content| && mov.id >= limit
    ensures Originals(WithMov(content, k, mov), limit) == Originals(content, limit)
  {
    var c := WithMov(content, k, mov);
    if k == 0 {
      assert c[1..] == content;
    } else {
      assert c[0] == content[0] && c[1..] == WithMov(content[1..], k - 1, mov);
      OriginalsInsert(content[1..], k - 1, mov, limit);
    }
  }

  lemma {:induction false} IndexAfterInsert(content: seq<Item>, k: nat, mov: Item, id: nat)
    requires k <= |content| && Index(content, id) < |content|
    ensures Index(WithMov(content, k, mov), id) < |content| + 1
  {
    var i := Index(content, id);
    var c := WithMov(content, k, mov);
    assert c[if i < k then i else i + 1].id == id;
  }

  /** Everything the loop keeps. */
  ghost predicate Inv(
    content: seq<Item>, states: seq<State>, visited: map<nat, seq<Value>>, nextId: nat,
    limit: nat, b: Bounds, passed: set<nat>)
  {
    && BoundsOk(b) && limit <= nextId
    && Tidy(content, limit) && ContentWithin(content, b, nextId) && StatesWithin(states, content, b)
    && Progressed(content, limit, visited.Keys, passed) && Chain(content, states, visited.Keys, passed)
    && forall id :: id in passed ==> id < nextId
  }

  lemma {:induction false} Dropped(
    content: seq<Item>, s: State, rest: seq<State>, visited: map<nat, seq<Value>>, nextId: nat,
    limit: nat, b: Bounds, passed: set<nat>)
    requires Inv(content, [s] + rest, visited, nextId, limit, b, passed)
    requires s.at.Some? ==>
      Index(content, s.at.value) < |content| && content[Index(content, s.at.value)].vmaddr in visited
    ensures Inv(content, rest, visited, nextId, limit, b, passed)
    ensures TotalSteps(content, rest) < TotalSteps(content, [s] + rest)
  {
    assert s in [s] + rest && ([s] + rest)[1..] == rest;
    hide Tidy, Progressed, Chain, ContentWithin, StateWithin;
    if s.at.Some? {
      var k := Index(content, s.at.value);
      assert UniqueIds(content) by { TidyUnique(content, limit); }
      forall j | 0 <= j < |content| && content[j].id == s.at.value ensures Done(content[j], visited.Keys, passed) {
        IndexIs(content, j);
      }
    }
    DropState(content, s, rest, visited.Keys, passed);
  }

  lemma {:induction false} TidyUnique(content: seq<Item>, limit: nat)
    requires Tidy(content, limit)
    ensures UniqueIds(content)
  {
  }

  lemma {:induction false} NextState(content: seq<Item>, k: nat, v: Value, rest: seq<State>, limit: nat)
    requires Tidy(content, limit) && k < |content|
    ensures MovesOn(content, k, rest, [State(v, At(content, k + 1))] + rest)
    ensures At(content, k + 1).Some? ==> Index(content, At(content, k + 1).value) == k + 1
    ensures Steps(content, State(v, At(content, k + 1))) < Steps(content, State(v, Some(content[k].id)))
  {
    TidyUnique(content, limit);
    hide Tidy;
    IndexIs(content, k);
    var next := State(v, At(content, k + 1));
    if k + 1 < |content| {
      IndexIs(content, k + 1);
      assert next in [next] + rest && next.at == Some(content[k + 1].id);
    }
  }

  lemma {:induction false} PassedOver(
    content: seq<Item>, s: State, rest: seq<State>, k: nat, visited: map<nat, seq<Value>>, nextId: nat,
    limit: nat, b: Bounds, passed: set<nat>)
    requires Inv(content, [s] + rest, visited, nextId, limit, b, passed)
    requires k < |content| && s.at == Some(content[k].id) && content[k].inst.None?
    ensures
      var states' := [State(s.value, At(content, k + 1))] + rest;
      Inv(content, states', visited, nextId, limit, b, passed + {content[k].id})
      && TotalSteps(content, states') < TotalSteps(content, [s] + rest)
  {
    var next := State(s.value, At(content, k + 1));
    assert s in [s] + rest && ([s] + rest)[1..] == rest && ([next] + rest)[1..] == rest;
    NextState(content, k, s.value, rest, limit);
    PassItem(content, k, s, rest, [next] + rest, visited.Keys, passed, limit);
    PassedProgress(content, k, visited.Keys, passed, limit);
    WithinNext(content, s, rest, k, b);
    hide Tidy, Progressed, Chain, StateWithin, StatesWithin;
  }

  lemma {:induction false} PassedProgress(content: seq<Item>, k: nat, seen: set<nat>, passed: set<nat>, limit: nat)
    requires Tidy(content, limit) && Progressed(content, limit, seen, passed) && k < |content| && content[k].inst.None?
    ensures Progressed(content, limit, seen, passed + {content[k].id})
  {
  }

  lemma {:induction false} WithinNext(content: seq<Item>, s: State, rest: seq<State>, k: nat, b: Bounds)
    requires StatesWithin([s] + rest, content, b) && UniqueIds(content)
    ensures StatesWithin(rest, content, b) && ValueWithin(s.value, b)
    ensures StatesWithin([State(s.value, At(content, k + 1))] + rest, content, b)
  {
    assert s in [s] + rest;
    forall t | t in rest ensures StateWithin(t, content, b) {
      assert t in [s] + rest;
    }
    if k + 1 < |content| {
      IndexIs(content, k + 1);
    }
  }

  lemma {:induction false} Visits(
    content: seq<Item>, s: State, rest: seq<State>, k: nat, states': seq<State>, visited: map<nat, seq<Value>>,
    nextId: nat, limit: nat, b: Bounds, passed: set<nat>)
    requires Inv(content, [s] + rest, visited, nextId, limit, b, passed)
    requires k < |content| && s.at == Some(content[k].id) && content[k].inst.Some?
    requires content[k].vmaddr in visited ==> s.value !in visited[content[k].vmaddr]
    requires StatesWithin(states', content, b) && MovesOn(content, k, rest, states')
    ensures Inv(content, states', Record(visited, content[k].vmaddr, s.value), nextId, limit, b, passed)
    ensures Unseen(b, Record(visited, content[k].vmaddr, s.value)) < Unseen(b, visited)
  {
    var v := content[k].vmaddr;
    assert s in [s] + rest && StateWithin(s, content, b) && ItemWithin(content[k], b);
    assert Record(visited, v, s.value).Keys == visited.Keys + {v};
    VisitItem(content, k, s, rest, states', visited.Keys, passed, limit);
    RecordShrinks(b, visited, v, s.value);
    hide Tidy, Progressed, Chain, StateWithin, StatesWithin, Unseen, Record;
  }

  lemma {:induction false} Loads(
    content: seq<Item>, k: nat, l: Load, states: seq<State>, visited: map<nat, seq<Value>>, nextId: nat,
    limit: nat, b: Bounds, passed: set<nat>)
    requires Inv(content, states, visited, nextId, limit, b, passed)
    requires k < |content| && content[k].inst.Some? && content[k].vmaddr in visited && l.reg in b.regs
    ensures Inv(WithMov(content, k, MovItem(nextId, content[k].vmaddr, l)), states, visited, nextId + 1, limit, b, passed)
  {
    var mov := MovItem(nextId, content[k].vmaddr, l);
    assert ItemWithin(content[k], b);
    InsertMov(content, k, mov, states, visited.Keys, passed, limit);
    hide Tidy, Progressed, Chain;
    forall s | s in states ensures StateWithin(s, WithMov(content, k, mov), b) {
      assert StateWithin(s, content, b);
      if s.at.Some? {
        IndexAfterInsert(content, k, mov, s.at.value);
      }
    }
  }

  // ----- which instruction was handled, and in which state -----

  /** The visited map a run of visits leaves. */
  function Recorded(trace: seq<Met>): map<nat, seq<Value>>
  {
    if trace == [] then map[]
    else
      var last := trace[|trace| - 1];
      Record(Recorded(trace[..|trace| - 1]), last.vmaddr, last.value)
  }

  predicate Handled(trace: seq<Met>, i: Item)
  {
    exists n :: 0 <= n < |trace| && trace[n].id == i.id && trace[n].vmaddr == i.vmaddr
  }

  /** The original instruction at a visited address was itself handled there. */
  ghost predicate Traced(content: seq<Item>, visited: map<nat, seq<Value>>, limit: nat, trace: seq<Met>)
  {
    && visited == Recorded(trace)
    && forall k :: 0 <= k < |content| && Original(content[k], limit) && content[k].vmaddr in visited ==>
         Handled(trace, content[k])
  }

  lemma {:induction false} RecordedSnoc(trace: seq<Met>, v: Met)
    ensures Recorded(trace + [v]) == Record(Recorded(trace), v.vmaddr, v.value)
  {
    assert (trace + [v])[..|trace|] == trace;
    hide Record;
  }

  lemma {:induction false} HandledSnoc(trace: seq<Met>, v: Met, i: Item)
    requires Handled(trace, i) || (v.id == i.id && v.vmaddr == i.vmaddr)
    ensures Handled(trace + [v], i)
  {
    var t := trace + [v];
    if Handled(trace, i) {
      var n :| 0 <= n < |trace| && trace[n].id == i.id && trace[n].vmaddr == i.vmaddr;
      assert t[n] == trace[n];
    } else {
      assert t[|trace|] == v;
    }
  }

  /** An inserted instruction is never the first one handled at its address. */
  lemma {:induction false} TraceVisit(
    content: seq<Item>, k: nat, s: State, rest: seq<State>, visited: map<nat, seq<Value>>, nextId: nat, limit: nat,
    b: Bounds, passed: set<nat>, trace: seq<Met>)
    requires Inv(content, [s] + rest, visited, nextId, limit, b, passed) && Traced(content, visited, limit, trace)
    requires k < |content| && content[k].inst.Some?
    ensures Traced(content, Record(visited, content[k].vmaddr, s.value), limit,
                   trace + [Met(content[k].id, content[k].vmaddr, s.value)])
  {
    var v := Met(content[k].id, content[k].vmaddr, s.value);
    RecordedSnoc(trace, v);
    RecordKeys(visited, content[k].vmaddr, s.value);
    assert Progressed(content, limit, visited.Keys, passed) && OwnAddress(content, limit);
    hide Inv, Chain, Grouped, UniqueIds, OnlyInstsInserted, Record, Recorded, Handled;
    forall j | 0 <= j < |content| && Original(content[j], limit) &&
               content[j].vmaddr in Record(visited, content[k].vmaddr, s.value)
      ensures Handled(trace + [v], content[j])
    {
      HandledSnoc(trace, v, content[j]);
    }
  }

  lemma {:induction false} TraceInsert(
    content: seq<Item>, k: nat, mov: Item, visited: map<nat, seq<Value>>, limit: nat, trace: seq<Met>)
    requires Traced(content, visited, limit, trace) && k <= |content| && mov.id >= limit
    ensures Traced(WithMov(content, k, mov), visited, limit, trace)
  {
    hide Recorded, Handled;
    var c := WithMov(content, k, mov);
    forall j | 0 <= j < |c| && Original(c[j], limit) && c[j].vmaddr in visited ensures Handled(trace, c[j]) {
      assert c[j] == content[if j < k then j else j - 1];
    }
  }

  // ----- the flow of values through the loop -----

  lemma {:induction false} IndexShift(content: seq<Item>, k: nat, mov: Item, c: seq<Item>, id: nat)
    requires IsInsertion(content, k, mov, c) && mov.id != id
    ensures
      var j := Index(content, id);
      Index(c, id) == if j < k then j else j + 1
  {
    var j, j' := Index(content, id), Index(c, id);
    if j < |content| {
      assert c[if j < k then j else j + 1] == content[j];
    }
    if j' < |c| {
      assert c[j'] == content[if j' < k then j' else j' - 1];
    }
  }

  lemma {:induction false} LandsShift(content: seq<Item>, k: nat, mov: Item, c: seq<Item>, j: nat)
    requires IsInsertion(content, k, mov, c) && content[k].inst.Some? && mov.inst.Some?
    requires mov.vmaddr == content[k].vmaddr
    ensures j <= k ==> Lands(c, j) == Lands(content, j)
    ensures k <= j ==> Lands(c, j + 1) == Lands(content, j)
    decreases |content| - j
  {
    if j < |content| {
      LandsShift(content, k, mov, c, j + 1);
    }
  }

  lemma {:induction false} GoesShift(
    content: seq<Item>, k: nat, mov: Item, c: seq<Item>, m: Met, env: Env, v: Value, a: nat)
    requires IsInsertion(content, k, mov, c) && content[k].inst.Some? && mov.inst.Some?
    requires mov.vmaddr == content[k].vmaddr && TargetsBelow(content, mov.id)
    requires Index(content, m.id) < |content|
    ensures Goes(c, m, env, v, a) <==> Goes(content, m, env, v, a)
  {
    var j := Index(content, m.id);
    assert Below(content[j], mov.id);
    IndexShift(content, k, mov, c, m.id);
    LandsShift(content, k, mov, c, j + 1);
    LandsShift(content, k, mov, c, j);
    assert c[Index(c, m.id)] == content[j];
    hide HandleInst, Index, Lands, IsInsertion, TargetsBelow;
    if content[j].inst.Some? && content[j].inst.value.target.Some? {
      var t := content[j].inst.value.target.value;
      IndexShift(content, k, mov, c, t);
      LandsShift(content, k, mov, c, Index(content, t));
    }
  }

  lemma {:induction false} ArrivesShift(
    content: seq<Item>, k: nat, mov: Item, c: seq<Item>, trace: seq<Met>, env: Env, v: Value, a: nat)
    requires IsInsertion(content, k, mov, c) && content[k].inst.Some? && mov.inst.Some?
    requires mov.vmaddr == content[k].vmaddr && TargetsBelow(content, mov.id) && Known(content, trace, env)
    ensures Arrives(c, trace, env, v, a) <==> Arrives(content, trace, env, v, a)
  {
    LandsShift(content, k, mov, c, 0);
    hide Lands, Goes, IsInsertion, TargetsBelow, Index;
    forall m | m in trace ensures Goes(c, m, env, v, a) <==> Goes(content, m, env, v, a) {
      GoesShift(content, k, mov, c, m, env, v, a);
    }
  }

  lemma {:induction false} PendingShift(
    content: seq<Item>, k: nat, mov: Item, c: seq<Item>, states: seq<State>, v: Value, a: nat)
    requires IsInsertion(content, k, mov, c) && content[k].inst.Some? && mov.inst.Some?
    requires mov.vmaddr == content[k].vmaddr
    requires forall s :: s in states && s.at.Some? ==> s.at.value != mov.id
    ensures Pending(c, states, v, a) <==> Pending(content, states, v, a)
  {
    hide Lands, Index, IsInsertion;
    forall s | s in states ensures Where(c, s) == Where(content, s) {
      if s.at.Some? {
        IndexShift(content, k, mov, c, s.at.value);
        LandsShift(content, k, mov, c, Index(content, s.at.value));
      }
    }
  }

  lemma {:induction false} KnownShift(content: seq<Item>, k: nat, mov: Item, c: seq<Item>, trace: seq<Met>, env: Env)
    requires IsInsertion(content, k, mov, c) && Known(content, trace, env) && TargetsBelow(content, mov.id)
    ensures Known(c, trace, env)
  {
    hide Index, IsInsertion, Handles;
    forall n | 0 <= n < |trace|
      ensures
        var j := Index(c, trace[n].id);
        j < |c| && c[j].vmaddr == trace[n].vmaddr && Handles(trace[n].value, c[j], env)
    {
      var j := Index(content, trace[n].id);
      assert Below(content[j], mov.id);
      IndexShift(content, k, mov, c, trace[n].id);
      Shifted(content, k, mov, c, j);
    }
  }

  lemma {:induction false} Shifted(content: seq<Item>, k: nat, mov: Item, c: seq<Item>, j: nat)
    requires IsInsertion(content, k, mov, c) && j < |content|
    ensures c[if j < k then j else j + 1] == content[j] && |c| == |content| + 1
  {
  }

  lemma {:induction false} FlowInsert(
    content: seq<Item>, k: nat, l: Load, states: seq<State>, trace: seq<Met>, env: Env, nextId: nat)
    requires Flow(content, states, trace, env, nextId) && k < |content| && content[k].inst.Some?
    requires forall s :: s in states && s.at.Some? ==> s.at.value < nextId
    ensures Flow(WithMov(content, k, MovItem(nextId, content[k].vmaddr, l)), states, trace, env, nextId + 1)
  {
    var mov := MovItem(nextId, content[k].vmaddr, l);
    var c := WithMov(content, k, mov);
    assert IsInsertion(content, k, mov, c);
    assert Below(mov, nextId + 1) && mov.inst.Some? && mov.vmaddr == content[k].vmaddr && mov.id == nextId;
    forall j | 0 <= j < |c| ensures Below(c[j], nextId + 1) {
      assert j != k ==> Below(content[if j < k then j else j - 1], nextId);
    }
    KnownShift(content, k, mov, c, trace, env);
    hide WithMov, MovItem, IsInsertion, Below, Arrives, Pending, Seen, Index;
    forall v, a: nat ensures Arrives(c, trace, env, v, a) <==> Arrives(content, trace, env, v, a) {
      ArrivesShift(content, k, mov, c, trace, env, v, a);
    }
    forall v, a: nat ensures Pending(c, states, v, a) <==> Pending(content, states, v, a) {
      PendingShift(content, k, mov, c, states, v, a);
    }
    forall n | 0 <= n < |trace| ensures Arrives(c, trace[..n], env, trace[n].value, trace[n].vmaddr) {
      ArrivesShift(content, k, mov, c, trace[..n], env, trace[n].value, trace[n].vmaddr);
    }
  }

  /** A state that lands nowhere or where its value was seen can go. */
  lemma {:induction false} FlowDrop(
    content: seq<Item>, s: State, rest: seq<State>, trace: seq<Met>, env: Env, nextId: nat)
    requires Flow(content, [s] + rest, trace, env, nextId)
    requires Where(content, s).Some? ==> Seen(trace, s.value, Where(content, s).value)
    ensures Flow(content, rest, trace, env, nextId)
  {
    hide Arrives, Seen, Where, Grounded, Known, TargetsBelow;
    forall v, a: nat ensures Pending(content, rest, v, a) ==> Pending(content, [s] + rest, v, a) {
      if Pending(content, rest, v, a) {
        var t :| t in rest && t.value == v && Where(content, t) == Some(a);
        assert t in [s] + rest;
      }
    }
    forall v, a: nat | Pending(content, [s] + rest, v, a) ensures Pending(content, rest, v, a) || Seen(trace, v, a) {
      var t :| t in [s] + rest && t.value == v && Where(content, t) == Some(a);
    }
  }

  /** A state that moves without changing where it lands. */
  lemma {:induction false} FlowMove(
    content: seq<Item>, s: State, s': State, rest: seq<State>, trace: seq<Met>, env: Env, nextId: nat)
    requires Flow(content, [s] + rest, trace, env, nextId)
    requires s'.value == s.value && Where(content, s') == Where(content, s)
    ensures Flow(content, [s'] + rest, trace, env, nextId)
  {
    hide Arrives, Seen, Where, Grounded, Known, TargetsBelow;
    forall v, a: nat ensures Pending(content, [s'] + rest, v, a) <==> Pending(content, [s] + rest, v, a) {
      PendingMove(content, s, s', rest, v, a);
      PendingMove(content, s', s, rest, v, a);
    }
  }

  lemma {:induction false} PendingMove(
    content: seq<Item>, s: State, s': State, rest: seq<State>, v: Value, a: nat)
    requires s'.value == s.value && Where(content, s') == Where(content, s)
    ensures Pending(content, [s] + rest, v, a) ==> Pending(content, [s'] + rest, v, a)
  {
    hide Where;
    if Pending(content, [s] + rest, v, a) {
      var t :| t in [s] + rest && t.value == v && Where(content, t) == Some(a);
      assert (if t == s then s' else t) in [s'] + rest;
    }
  }

  lemma {:induction false} ArrivesSnoc(content: seq<Item>, trace: seq<Met>, m: Met, env: Env, v: Value, a: nat)
    ensures Arrives(content, trace + [m], env, v, a) <==> Arrives(content, trace, env, v, a) || Goes(content, m, env, v, a)
  {
    hide Goes, Begins;
    assert m in trace + [m];
    forall x | x in trace ensures x in trace + [m] {
    }
    forall x | x in trace + [m] ensures x in trace || x == m {
    }
  }

  lemma {:induction false} SeenSnoc(trace: seq<Met>, m: Met, v: Value, a: nat)
    ensures Seen(trace + [m], v, a) <==> Seen(trace, v, a) || (m.value == v && m.vmaddr == a)
  {
    var t := trace + [m];
    assert t[|trace|] == m;
    assert forall n :: 0 <= n < |trace| ==> t[n] == trace[n];
  }

  lemma {:induction false} KnownSnoc(content: seq<Item>, trace: seq<Met>, m: Met, env: Env)
    requires Known(content, trace, env) && Index(content, m.id) < |content|
    requires content[Index(content, m.id)].vmaddr == m.vmaddr && Handles(m.value, content[Index(content, m.id)], env)
    ensures Known(content, trace + [m], env)
  {
    hide Index, Handles;
  }

  lemma {:induction false} GroundedSnoc(content: seq<Item>, trace: seq<Met>, m: Met, env: Env)
    requires Grounded(content, trace, env) && Arrives(content, trace, env, m.value, m.vmaddr)
    ensures Grounded(content, trace + [m], env)
  {
    hide Arrives;
    var t := trace + [m];
    forall n | 0 <= n < |t| ensures Arrives(content, t[..n], env, t[n].value, t[n].vmaddr) {
      assert t[..n] == trace[..n];
      if n == |trace| {
        assert trace[..n] == trace;
      } else {
        assert t[n] == trace[n];
      }
    }
  }

  /** `after` is what remains to be done once `s` has been visited, as `m`. */
  ghost predicate Continues(content: seq<Item>, rest: seq<State>, after: seq<State>, m: Met, env: Env)
  {
    forall v, a: nat :: Pending(content, after, v, a) <==> Pending(content, rest, v, a) || Goes(content, m, env, v, a)
  }

  lemma {:induction false} FlowVisit(
    content: seq<Item>, s: State, rest: seq<State>, k: nat, after: seq<State>, trace: seq<Met>, env: Env, nextId: nat)
    requires Flow(content, [s] + rest, trace, env, nextId) && UniqueIds(content)
    requires k < |content| && s.at == Some(content[k].id) && content[k].inst.Some?
    requires Handles(s.value, content[k], env)
    requires Continues(content, rest, after, Met(content[k].id, content[k].vmaddr, s.value), env)
    ensures Flow(content, after, trace + [Met(content[k].id, content[k].vmaddr, s.value)], env, nextId)
  {
    var m := Met(content[k].id, content[k].vmaddr, s.value);
    IndexIs(content, k);
    assert Where(content, s) == Some(m.vmaddr) && s in [s] + rest;
    hide Index, Lands, UniqueIds, Handles;
    KnownSnoc(content, trace, m, env);
    assert Pending(content, [s] + rest, m.value, m.vmaddr);
    hide Known, TargetsBelow, Where;
    GroundedSnoc(content, trace, m, env);
    hide Arrives, Seen, Grounded, Goes;
    forall v, a: nat
      ensures Pending(content, [s] + rest, v, a) <==> Pending(content, rest, v, a) || (v, a) == (m.value, m.vmaddr)
    {
      FirstPending(content, s, rest, v, a, m.vmaddr);
    }
    hide Pending;
    forall v, a: nat
      ensures Arrives(content, trace + [m], env, v, a) <==>
              Arrives(content, trace, env, v, a) || Goes(content, m, env, v, a)
    {
      ArrivesSnoc(content, trace, m, env, v, a);
    }
    forall v, a: nat ensures Seen(trace + [m], v, a) <==> Seen(trace, v, a) || (m.value == v && m.vmaddr == a) {
      SeenSnoc(trace, m, v, a);
    }
  }

  lemma {:induction false} FirstPending(content: seq<Item>, s: State, rest: seq<State>, v: Value, a: nat, here: nat)
    requires Where(content, s) == Some(here)
    ensures Pending(content, [s] + rest, v, a) <==> Pending(content, rest, v, a) || (v, a) == (s.value, here)
  {
    hide Where;
    assert s in [s] + rest;
    forall t | t in rest ensures t in [s] + rest {
    }
    forall t | t in [s] + rest ensures t == s || t in rest {
    }
  }

  /** One or two new states among the old ones. */
  lemma {:induction false} ContinuesIff(
    content: seq<Item>, rest: seq<State>, after: seq<State>, m: Met, env: Env, x: State, y: State)
    requires forall t :: t in after <==> t in rest || t == x || t == y
    requires forall v, a: nat :: Goes(content, m, env, v, a) <==>
               (x.value == v && Where(content, x) == Some(a)) || (y.value == v && Where(content, y) == Some(a))
    ensures Continues(content, rest, after, m, env)
  {
    hide Goes, Where;
    assert x in after && y in after;
  }

  /** Behind the last instruction, or at the next item. */
  lemma {:induction false} WhereNext(content: seq<Item>, k: nat, v: Value)
    requires UniqueIds(content) && k < |content|
    ensures Where(content, State(v, At(content, k + 1))) == Lands(content, k + 1)
  {
    if k + 1 < |content| {
      IndexIs(content, k + 1);
    }
  }

  lemma {:induction false} WhereTarget(content: seq<Item>, target: Option<nat>, v: Value)
    requires UniqueIds(content)
    ensures Where(content, State(v, Position(content, target))) ==
            if target.Some? then Lands(content, Index(content, target.value)) else None
  {
    if target.Some? && Index(content, target.value) < |content| {
      IndexIs(content, Index(content, target.value));
    }
  }

  lemma {:induction false} BranchContinues(content: seq<Item>, k: nat, v: Value, rest: seq<State>, after: seq<State>, env: Env)
    requires UniqueIds(content) && k < |content| && content[k].inst.Some? && IsBranch(content[k].inst.value)
    requires
      var next, target := At(content, k + 1), Position(content, content[k].inst.value.target);
      after == [State(v, next), State(v, target)] + rest || after == [State(v, target)] + rest + [State(v, next)]
    ensures Continues(content, rest, after, Met(content[k].id, content[k].vmaddr, v), env)
  {
    var m := Met(content[k].id, content[k].vmaddr, v);
    var x, y := State(v, At(content, k + 1)), State(v, Position(content, content[k].inst.value.target));
    IndexIs(content, k);
    WhereNext(content, k, v);
    WhereTarget(content, content[k].inst.value.target, v);
    hide Index, Lands, UniqueIds, Where, At, Position;
    ContinuesIff(content, rest, after, m, env, x, y);
  }

  lemma {:induction false} PlainContinues(content: seq<Item>, k: nat, v: Value, rest: seq<State>, env: Env)
    requires UniqueIds(content) && k < |content| && content[k].inst.Some? && !IsBranch(content[k].inst.value)
    requires HandleInst(v, content[k].inst.value, content[k].vmaddr, env).Some?
    ensures
      var e := HandleInst(v, content[k].inst.value, content[k].vmaddr, env).value;
      Continues(content, rest, [State(e.value, At(content, k + 1))] + rest, Met(content[k].id, content[k].vmaddr, v), env)
  {
    var m := Met(content[k].id, content[k].vmaddr, v);
    var e := HandleInst(v, content[k].inst.value, content[k].vmaddr, env).value;
    var x := State(e.value, At(content, k + 1));
    IndexIs(content, k);
    WhereNext(content, k, e.value);
    hide Index, Lands, UniqueIds, Where, At, HandleInst;
    ContinuesIff(content, rest, [x] + rest, m, env, x, x);
  }

  lemma {:induction false} PassedLands(content: seq<Item>, k: nat, v: Value)
    requires UniqueIds(content) && k < |content| && content[k].inst.None?
    ensures Where(content, State(v, At(content, k + 1))) == Where(content, State(v, Some(content[k].id)))
  {
    WhereNext(content, k, v);
    IndexIs(content, k);
  }

  /** An item without bytes at a visited address stands before the instruction visited. */
  lemma {:induction false} GroupLands(content: seq<Item>, k: nat, j: nat)
    requires Grouped(content) && k < |content| && j < |content| && content[j].inst.Some?
    requires content[k].vmaddr == content[j].vmaddr
    ensures Lands(content, k) == Some(content[k].vmaddr)
    decreases |content| - k
  {
    if content[k].inst.None? {
      assert SameSpot(content[k], content[j]);
      GroupLands(content, k + 1, j);
    }
  }

  lemma {:induction false} RecordedIff(trace: seq<Met>, v: Value, a: nat)
    ensures (a in Recorded(trace) && v in Recorded(trace)[a]) <==> Seen(trace, v, a)
  {
    if trace != [] {
      var n := |trace| - 1;
      assert trace == trace[..n] + [trace[n]];
      RecordedIff(trace[..n], v, a);
      SeenSnoc(trace[..n], trace[n], v, a);
    }
  }

  /** A state whose value was recorded at the address of its item lands where it was seen. */
  lemma {:induction false} RecordedLands(content: seq<Item>, k: nat, v: Value, trace: seq<Met>, env: Env)
    requires UniqueIds(content) && Grouped(content) && Known(content, trace, env) && k < |content|
    requires content[k].vmaddr in Recorded(trace) && v in Recorded(trace)[content[k].vmaddr]
    ensures Where(content, State(v, Some(content[k].id))) == Some(content[k].vmaddr) && Seen(trace, v, content[k].vmaddr)
  {
    RecordedIff(trace, v, content[k].vmaddr);
    hide Recorded;
    var n :| 0 <= n < |trace| && trace[n].value == v && trace[n].vmaddr == content[k].vmaddr;
    var j := Index(content, trace[n].id);
    assert content[j].inst.Some?;
    GroupLands(content, k, j);
    IndexIs(content, k);
  }

  lemma {:induction false} FlowStarts(content: seq<Item>, env: Env, nextId: nat)
    requires UniqueIds(content) && TargetsBelow(content, nextId)
    ensures Flow(content, [State(INITIAL, At(content, 0))], [], env, nextId)
  {
    var s := State(INITIAL, At(content, 0));
    if content != [] {
      IndexIs(content, 0);
    }
    assert Where(content, s) == Lands(content, 0);
    hide Where, Lands, At;
    assert s in [s];
    forall v, a: nat ensures Pending(content, [s], v, a) <==> Begins(content, v, a) {
    }
  }

  lemma {:induction false} FlowEnds(content: seq<Item>, trace: seq<Met>, env: Env, nextId: nat)
    requires Flow(content, [], trace, env, nextId)
    ensures Settled(content, trace, env)
  {
    hide Arrives;
    forall v, a: nat | Seen(trace, v, a) ensures Arrives(content, trace, env, v, a) {
      var n :| 0 <= n < |trace| && trace[n].value == v && trace[n].vmaddr == a;
      assert Arrives(content, trace[..n], env, v, a);
      ArrivesLater(content, trace, n, env, v, a);
    }
  }

  lemma {:induction false} ArrivesLater(content: seq<Item>, trace: seq<Met>, n: nat, env: Env, v: Value, a: nat)
    requires n <= |trace| && Arrives(content, trace[..n], env, v, a)
    ensures Arrives(content, trace, env, v, a)
  {
    hide Begins, Goes;
    forall m | m in trace[..n] ensures m in trace {
    }
  }

  lemma {:induction false} FlowFails(
    content: seq<Item>, s: State, rest: seq<State>, k: nat, trace: seq<Met>, env: Env, nextId: nat)
    requires Flow(content, [s] + rest, trace, env, nextId) && UniqueIds(content)
    requires k < |content| && s.at == Some(content[k].id) && content[k].inst.Some? && !Handles(s.value, content[k], env)
    ensures Fails(content, trace, env)
  {
    IndexIs(content, k);
    assert Where(content, s) == Some(content[k].vmaddr) && s in [s] + rest;
    hide Where, Arrives, Handles;
    assert Pending(content, [s] + rest, s.value, content[k].vmaddr);
  }

  lemma {:induction false} StatesBelow(content: seq<Item>, states: seq<State>, b: Bounds, nextId: nat)
    requires StatesWithin(states, content, b) && ContentWithin(content, b, nextId)
    ensures forall s :: s in states && s.at.Some? ==> s.at.value < nextId
  {
    forall s | s in states && s.at.Some? ensures s.at.value < nextId {
      assert StateWithin(s, content, b);
    }
  }

  lemma {:induction false} NoWhere(content: seq<Item>, s: State)
    requires s.at.None?
    ensures Where(content, s).None?
  {
  }

  lemma {:induction false} FlowKnown(
    content: seq<Item>, states: seq<State>, trace: seq<Met>, env: Env, nextId: nat)
    requires Flow(content, states, trace, env, nextId)
    ensures Known(content, trace, env)
  {
  }

  /** One pass of the loop makes no visit and no edit, or one visit and its edit. */
  ghost predicate Edited(t: Text, trace: seq<Met>, t': Text, trace': seq<Met>, env: Env)
  {
    (t' == t && trace' == trace) || exists m :: trace' == trace + [m] && t' == Edit(t, m, env)
  }

  lemma {:induction false} EditedReplays(
    start: Text, t: Text, trace: seq<Met>, t': Text, trace': seq<Met>, env: Env)
    requires t == Replay(start, trace, env) && Edited(t, trace, t', trace', env)
    ensures t' == Replay(start, trace', env)
  {
    hide Edit, Replay;
    if !(t' == t && trace' == trace) {
      var m :| trace' == trace + [m] && t' == Edit(t, m, env);
      ReplaySnoc(start, trace, m, env);
    }
  }

  lemma {:induction false} InvFacts(
    content: seq<Item>, states: seq<State>, visited: map<nat, seq<Value>>, nextId: nat,
    limit: nat, b: Bounds, passed: set<nat>)
    requires Inv(content, states, visited, nextId, limit, b, passed)
    ensures UniqueIds(content) && Grouped(content) && forall s :: s in states && s.at.Some? ==> s.at.value < nextId
  {
    StatesBelow(content, states, b, nextId);
  }

  class Analysis {
    var content: seq<Item>
    var states: seq<State>
    var visited: map<nat, seq<Value>>
    var nextId: nat
    var rebasees: seq<nat>
    var cleared: seq<nat>
    ghost var trace: seq<Met>

    /** One state at the beginning of the section. */
    constructor (content: seq<Item>, nextId: nat)
      ensures this.content == content && this.nextId == nextId && visited == map[] && rebasees == cleared == []
      ensures states == [State(INITIAL, At(content, 0))] && trace == []
    {
      this.content, this.nextId := content, nextId;
      states := [State(INITIAL, At(content, 0))];
      visited, rebasees, cleared := map[], [], [];
      trace := [];
    }

    ghost predicate Valid(limit: nat, b: Bounds, passed: set<nat>)
      reads this
    {
      Inv(content, states, visited, nextId, limit, b, passed) && Traced(content, visited, limit, trace)
    }

    ghost function Now(): Text
      reads this
    {
      Text(content, nextId, cleared, rebasees)
    }

    ghost predicate Flows(env: Env)
      reads this
    {
      Flow(content, states, trace, env, nextId)
    }

    /** What handle_inst does to the list and to the rebase list. */
    method Apply(e: Effect, k: nat)
      requires k < |content|
      modifies this`content, this`nextId, this`rebasees, this`cleared
      ensures e.load.None? ==> content == old(content) && nextId == old(nextId)
      ensures e.load.Some? ==> nextId == old(nextId) + 1
      ensures e.load.Some? ==>
        content == WithMov(old(content), k, MovItem(old(nextId), old(content)[k].vmaddr, e.load.value))
      ensures cleared == old(cleared) + if e.clear then [old(content)[k].id] else []
      ensures rebasees == old(rebasees) + if e.load.Some? && e.rebase then [old(nextId)] else []
    {
      if e.clear {
        cleared := cleared + [content[k].id];
      }
      if e.load.Some? {
        content := WithMov(content, k, MovItem(nextId, content[k].vmaddr, e.load.value));
        if e.rebase {
          rebasees := rebasees + [nextId];
        }
        nextId := nextId + 1;
      }
    }

    /** A branch is followed both ways: a conditional one at once, an unconditional one at the end of the queue. */
    method VisitBranch(s: State, rest: seq<State>, k: nat, ghost env: Env, ghost limit: nat, ghost b: Bounds,
                       ghost passed: set<nat>)
      requires Valid(limit, b, passed) && Flows(env) && states == [s] + rest
      requires k < |content| && s.at == Some(content[k].id)
      requires content[k].inst.Some? && IsBranch(content[k].inst.value)
      requires content[k].vmaddr in visited ==> s.value !in visited[content[k].vmaddr]
      modifies this`states, this`visited, this`trace
      ensures Valid(limit, b, passed) && visited == Record(old(visited), content[k].vmaddr, s.value)
      ensures trace == old(trace) + [Met(content[k].id, content[k].vmaddr, s.value)] && Flows(env)
      ensures Now() == Edit(old(Now()), Met(content[k].id, content[k].vmaddr, s.value), env)
      ensures
        var next, target := At(content, k + 1), Position(content, content[k].inst.value.target);
        states == if content[k].inst.value.cls.CondJump? then [State(s.value, next), State(s.value, target)] + rest
                  else [State(s.value, target)] + rest + [State(s.value, next)]
      ensures Unseen(b, visited) < old(Unseen(b, visited))
    {
      hide Inv, Record, Unseen, At, Position, Traced, Flow, Edit, Continues;
      InvFacts(content, states, visited, nextId, limit, b, passed);
      BranchEditsNothing(Now(), k, s.value, env);
      var next, target := At(content, k + 1), Position(content, content[k].inst.value.target);
      VisitSetup(content, s, rest, k, visited, nextId, limit, b, passed);
      TwoStates(content, s.value, next, target, rest, k, b, limit);
      states := if content[k].inst.value.cls.CondJump? then [State(s.value, next), State(s.value, target)] + rest
                else [State(s.value, target)] + rest + [State(s.value, next)];
      BranchContinues(content, k, s.value, rest, states, env);
      FlowVisit(content, s, rest, k, states, trace, env, nextId);
      Visits(content, s, rest, k, states, visited, nextId, limit, b, passed);
      TraceVisit(content, k, s, rest, visited, nextId, limit, b, passed, trace);
      visited := Record(visited, content[k].vmaddr, s.value);
      trace := trace + [Met(content[k].id, content[k].vmaddr, s.value)];
    }

    /** Any other instruction goes through the transfer function. */
    method VisitPlain(s: State, rest: seq<State>, k: nat, e: Effect, env: Env, ghost limit: nat, ghost b: Bounds,
                      ghost passed: set<nat>)
      requires Valid(limit, b, passed) && Flows(env) && states == [s] + rest
      requires k < |content| && s.at == Some(content[k].id) && content[k].inst.Some?
      requires content[k].vmaddr in visited ==> s.value !in visited[content[k].vmaddr]
      requires !IsBranch(content[k].inst.value)
      requires HandleInst(s.value, content[k].inst.value, content[k].vmaddr, env) == Some(e)
      modifies this
      ensures Valid(limit, b, passed) && Originals(content, limit) == old(Originals(content, limit))
      ensures visited == Record(old(visited), old(content)[k].vmaddr, s.value)
      ensures trace == old(trace) + [Met(old(content)[k].id, old(content)[k].vmaddr, s.value)]
      ensures Unseen(b, visited) < old(Unseen(b, visited))
      ensures Flows(env) && Now() == Edit(old(Now()), Met(old(content)[k].id, old(content)[k].vmaddr, s.value), env)
    {
      hide Inv, Record, Unseen, At, HandleInst, Originals, WithMov, Traced, Flow, Edit, Continues;
      InvFacts(content, states, visited, nextId, limit, b, passed);
      EffectIsEdit(Now(), k, s.value, env);
      PlainContinues(content, k, s.value, rest, env);
      VisitSetup(content, s, rest, k, visited, nextId, limit, b, passed);
      HandleInstWithin(s.value, content[k], env, b);
      MovedState(content, e.value, rest, k, b, limit);
      states := [State(e.value, At(content, k + 1))] + rest;
      FlowVisit(content, s, rest, k, states, trace, env, nextId);
      Visits(content, s, rest, k, states, visited, nextId, limit, b, passed);
      RecordKeys(visited, content[k].vmaddr, s.value);
      TraceVisit(content, k, s, rest, visited, nextId, limit, b, passed, trace);
      visited := Record(visited, content[k].vmaddr, s.value);
      trace := trace + [Met(content[k].id, content[k].vmaddr, s.value)];
      if e.load.Some? {
        InvFacts(content, states, visited, nextId, limit, b, passed);
        FlowInsert(content, k, e.load.value, states, trace, env, nextId);
        Loads(content, k, e.load.value, states, visited, nextId, limit, b, passed);
        OriginalsInsert(content, k, MovItem(nextId, content[k].vmaddr, e.load.value), limit);
        LimitKept(content, states, visited, nextId, limit, b, passed);
        TraceInsert(content, k, MovItem(nextId, content[k].vmaddr, e.load.value), visited, limit, trace);
      }
      Apply(e, k);
    }

    /** The branch for an instruction that was not seen in this state. */
    method Visit(s: State, rest: seq<State>, k: nat, env: Env, ghost limit: nat, ghost b: Bounds, ghost passed: set<nat>)
      returns (ok: bool)
      requires Valid(limit, b, passed) && Flows(env) && states == [s] + rest
      requires k < |content| && s.at == Some(content[k].id) && content[k].inst.Some?
      requires content[k].vmaddr in visited ==> s.value !in visited[content[k].vmaddr]
      modifies this
      ensures ok ==> Valid(limit, b, passed) && Originals(content, limit) == old(Originals(content, limit))
      ensures ok ==> visited == Record(old(visited), old(content)[k].vmaddr, s.value)
      ensures ok ==> Unseen(b, visited) < old(Unseen(b, visited))
      ensures ok ==>
        var m := Met(old(content)[k].id, old(content)[k].vmaddr, s.value);
        Flows(env) && trace == old(trace) + [m] && Now() == Edit(old(Now()), m, env)
      ensures !ok ==> Fails(content, trace, env) && content == old(content) && trace == old(trace)
    {
      hide Inv, Record, Unseen, HandleInst, Originals, WithMov, Traced, Flow, Edit, Fails;
      var d := content[k].inst.value;
      if d.cls.CondJump? || d.cls.Jump? {
        VisitBranch(s, rest, k, env, limit, b, passed);
        return true;
      }
      var e := HandleInst(s.value, d, content[k].vmaddr, env);
      if e.None? {
        InvFacts(content, states, visited, nextId, limit, b, passed);
        FlowFails(content, s, rest, k, trace, env, nextId);
        return false;
      }
      VisitPlain(s, rest, k, e.value, env, limit, b, passed);
      return true;
    }

    /** One pass of the loop. Every pass either sees something new or brings the states nearer to the end. */
    method Step(env: Env, ghost limit: nat, ghost b: Bounds, ghost passed: set<nat>)
      returns (ok: bool, ghost passed': set<nat>)
      requires Valid(limit, b, passed) && Flows(env) && states != []
      modifies this
      ensures ok ==> Valid(limit, b, passed') && Flows(env) && Edited(old(Now()), old(trace), Now(), trace, env)
      ensures !ok ==> Fails(content, trace, env) && content == old(content) && trace == old(trace)
      ensures ok ==> Originals(content, limit) == old(Originals(content, limit))
      ensures ok ==>
        Unseen(b, visited) < old(Unseen(b, visited)) ||
        (visited == old(visited) && TotalSteps(content, states) < old(TotalSteps(content, states)))
    {
      hide Inv, Index, Record, Unseen, Originals, TotalSteps, At, Flow, Edit, Fails, Where, Grouped, UniqueIds, Recorded;
      var s, rest := states[0], states[1..];
      assert states == [s] + rest;
      passed' := passed;
      ok := true;
      if s.at.None? {
        Dropped(content, s, rest, visited, nextId, limit, b, passed);
        NoWhere(content, s);
        FlowDrop(content, s, rest, trace, env, nextId);
        states := rest;
        return;
      }
      Located(content, s, rest, visited, nextId, limit, b, passed);
      InvFacts(content, states, visited, nextId, limit, b, passed);
      var k := Index(content, s.at.value);
      var item := content[k];
      assert s == State(s.value, Some(item.id));
      if item.vmaddr in visited && s.value in visited[item.vmaddr] {
        FlowKnown(content, states, trace, env, nextId);
        RecordedLands(content, k, s.value, trace, env);
        FlowDrop(content, s, rest, trace, env, nextId);
        Dropped(content, s, rest, visited, nextId, limit, b, passed);
        states := rest;
      } else if item.inst.None? {
        PassedOver(content, s, rest, k, visited, nextId, limit, b, passed);
        passed' := passed + {item.id};
        PassedLands(content, k, s.value);
        FlowMove(content, s, State(s.value, At(content, k + 1)), rest, trace, env, nextId);
        states := [State(s.value, At(content, k + 1))] + rest;
      } else {
        ok := Visit(s, rest, k, env, limit, b, passed);
      }
    }

    /**
     handle_insts: the loop ends although it inserts into the list it walks, and when it ends without an abort
     every original instruction has been visited. The original items are all still there, in order.
     */
    method Run(env: Env, ghost limit: nat, ghost b: Bounds, ghost passed: set<nat>) returns (ok: bool)
      requires Valid(limit, b, passed) && Flows(env) && trace == []
      modifies this
      ensures ok ==> Now() == Replay(old(Now()), trace, env) && Settled(content, trace, env)
      ensures !ok ==> Fails(content, trace, env) && content == Replay(old(Now()), trace, env).content
      ensures ok ==> states == [] && Originals(content, limit) == old(Originals(content, limit))
      ensures ok ==> forall k :: 0 <= k < |content| && content[k].inst.Some? ==> content[k].vmaddr in visited
      ensures ok ==> Traced(content, visited, limit, trace)
    {
      ghost var p := passed;
      ghost var start := Now();
      hide Inv, Chain, Progressed, Originals, Unseen, TotalSteps, Traced, Flow, Edit, Edited, Settled, Fails;
      while states != []
        invariant Valid(limit, b, p) && Originals(content, limit) == old(Originals(content, limit))
        invariant Flows(env) && Now() == Replay(start, trace, env)
        decreases Unseen(b, visited), TotalSteps(content, states)
      {
        ghost var t, seen := Now(), trace;
        ok, p := Step(env, limit, b, p);
        if !ok {
          return false;
        }
        EditedReplays(start, t, seen, Now(), trace, env);
      }
      FlowEnds(content, trace, env, nextId);
      Covered(content, visited, nextId, limit, b, p);
      return true;
    }
  }

  lemma {:induction false} Covered(
    content: seq<Item>, visited: map<nat, seq<Value>>, nextId: nat, limit: nat, b: Bounds, passed: set<nat>)
    requires Inv(content, [], visited, nextId, limit, b, passed)
    ensures forall k :: 0 <= k < |content| && content[k].inst.Some? ==> content[k].vmaddr in visited
  {
    forall k | 0 <= k < |content| && content[k].inst.Some? ensures content[k].vmaddr in visited {
      AllDone(content, visited.Keys, passed, k);
    }
  }

  lemma {:induction false} Located(
    content: seq<Item>, s: State, rest: seq<State>, visited: map<nat, seq<Value>>, nextId: nat,
    limit: nat, b: Bounds, passed: set<nat>)
    requires Inv(content, [s] + rest, visited, nextId, limit, b, passed) && s.at.Some?
    ensures Index(content, s.at.value) < |content|
  {
    assert s in [s] + rest;
    assert StateWithin(s, content, b);
  }

  lemma {:induction false} VisitSetup(
    content: seq<Item>, s: State, rest: seq<State>, k: nat, visited: map<nat, seq<Value>>, nextId: nat,
    limit: nat, b: Bounds, passed: set<nat>)
    requires Inv(content, [s] + rest, visited, nextId, limit, b, passed) && k < |content|
    ensures Tidy(content, limit) && ItemWithin(content[k], b) && 0 in b.vmaddrs && None in b.frames
    ensures StatesWithin(rest, content, b) && ValueWithin(s.value, b) && limit <= nextId
    ensures content[k].inst.Some? ==>
      var target := Position(content, content[k].inst.value.target);
      target.Some? ==> Index(content, target.value) < |content|
  {
    TidyUnique(content, limit);
    hide Tidy, Progressed, Chain;
    WithinNext(content, s, rest, k, b);
    if content[k].inst.Some? && content[k].inst.value.target.Some? {
      var i := Index(content, content[k].inst.value.target.value);
      if i < |content| {
        IndexIs(content, i);
      }
    }
  }

  lemma {:induction false} LimitKept(
    content: seq<Item>, states: seq<State>, visited: map<nat, seq<Value>>, nextId: nat,
    limit: nat, b: Bounds, passed: set<nat>)
    requires Inv(content, states, visited, nextId, limit, b, passed)
    ensures limit <= nextId
  {
  }

  lemma {:induction false} RecordKeys(visited: map<nat, seq<Value>>, vm: nat, v: Value)
    ensures Record(visited, vm, v).Keys == visited.Keys + {vm}
  {
  }

  lemma {:induction false} MovedState(content: seq<Item>, v: Value, rest: seq<State>, k: nat, b: Bounds, limit: nat)
    requires Tidy(content, limit) && k < |content| && ValueWithin(v, b) && StatesWithin(rest, content, b)
    ensures StatesWithin([State(v, At(content, k + 1))] + rest, content, b)
    ensures MovesOn(content, k, rest, [State(v, At(content, k + 1))] + rest)
  {
    NextState(content, k, v, rest, limit);
    hide Tidy, MovesOn;
  }

  lemma {:induction false} TwoStates(
    content: seq<Item>, v: Value, next: Option<nat>, target: Option<nat>, rest: seq<State>, k: nat, b: Bounds, limit: nat)
    requires Tidy(content, limit) && k < |content| && ValueWithin(v, b) && StatesWithin(rest, content, b)
    requires next == At(content, k + 1) && (target.Some? ==> Index(content, target.value) < |content|)
    ensures
      var a := [State(v, next), State(v, target)] + rest;
      StatesWithin(a, content, b) && MovesOn(content, k, rest, a)
    ensures
      var c := [State(v, target)] + rest + [State(v, next)];
      StatesWithin(c, content, b) && MovesOn(content, k, rest, c)
  {
    var x, y := State(v, next), State(v, target);
    var a, c := [x, y] + rest, [y] + rest + [x];
    NextState(content, k, v, rest, limit);
    assert x in a && x in c;
    hide Tidy, ValueWithin;
    forall t | t in a || t in c ensures StateWithin(t, content, b) {
      assert t == x || t == y || t in rest;
    }
  }

  // ----- any section -----

  /** Items follow each other without gap, and instructions have bytes. */
  predicate Tiled(content: seq<Item>)
  {
    && (forall k :: 0 <= k && k + 1 < |content| ==> content[k + 1].vmaddr == content[k].vmaddr + content[k].size)
    && (forall k :: 0 <= k < |content| && content[k].inst.Some? ==> content[k].size > 0)
  }

  lemma {:induction false} TiledRises(content: seq<Item>, j: nat, k: nat)
    requires Tiled(content) && j < k < |content|
    ensures content[j].vmaddr + content[j].size <= content[k].vmaddr
    decreases k
  {
    if j < k - 1 {
      TiledRises(content, j, k - 1);
      assert content[k - 1 + 1].vmaddr == content[k - 1].vmaddr + content[k - 1].size;
    } else {
      assert content[j + 1].vmaddr == content[j].vmaddr + content[j].size;
    }
  }

  lemma {:induction false} TiledIsTidy(content: seq<Item>, limit: nat)
    requires Tiled(content) && UniqueIds(content) && forall k :: 0 <= k < |content| ==> content[k].id < limit
    ensures Tidy(content, limit)
  {
    forall j, k | 0 <= j < |content| && 0 <= k < |content| && SameSpot(content[j], content[k])
      ensures j + 1 < |content| && content[j + 1].vmaddr == content[j].vmaddr
    {
      if k < j {
        TiledRises(content, k, j);
      } else {
        TiledRises(content, j, k);
        assert content[j + 1].vmaddr == content[j].vmaddr + content[j].size;
      }
    }
    forall j, k | 0 <= j < k < |content| && Original(content[j], limit) && Original(content[k], limit)
      ensures content[j].vmaddr != content[k].vmaddr
    {
      TiledRises(content, j, k);
    }
  }

  ghost function BoundsOf(content: seq<Item>): (b: Bounds)
    ensures BoundsOk(b) && forall k :: 0 <= k < |content| ==> ItemWithin(content[k], b)
  {
    Bounds({0} + (set k | 0 <= k < |content| :: content[k].vmaddr),
           set k | 0 <= k < |content| && content[k].inst.Some? :: content[k].inst.value.reg0,
           {None, Some(0)} + (set k | 0 <= k < |content| && content[k].inst.Some? :: Some(content[k].inst.value.memdisp)))
  }

  lemma {:induction false} StartsChained(content: seq<Item>)
    ensures Chain(content, [State(INITIAL, At(content, 0))], {}, {})
  {
    var states := [State(INITIAL, At(content, 0))];
    assert states[0] in states;
  }

  lemma {:induction false} StartsProgressed(content: seq<Item>, nextId: nat)
    requires forall k :: 0 <= k < |content| ==> content[k].id < nextId
    ensures Progressed(content, nextId, {}, {})
  {
  }

  lemma {:induction false} StartsInBounds(content: seq<Item>, b: Bounds)
    requires UniqueIds(content) && BoundsOk(b)
    ensures StatesWithin([State(INITIAL, At(content, 0))], content, b)
  {
    if content != [] {
      IndexIs(content, 0);
    }
  }

  lemma {:induction false} StartsWithin(content: seq<Item>, nextId: nat)
    requires Tidy(content, nextId) && forall k :: 0 <= k < |content| ==> content[k].id < nextId
    ensures Inv(content, [State(INITIAL, At(content, 0))], map[], nextId, nextId, BoundsOf(content), {})
  {
    TidyUnique(content, nextId);
    StartsChained(content);
    StartsProgressed(content, nextId);
    StartsInBounds(content, BoundsOf(content));
    hide Tidy, BoundsOf, Chain, Progressed, StatesWithin, ItemWithin, BoundsOk, At;
  }

  lemma {:induction false} AllOriginal(content: seq<Item>, limit: nat)
    requires forall k :: 0 <= k < |content| ==> content[k].id < limit
    ensures Originals(content, limit) == content
  {
    if content == [] {
    } else {
      AllOriginal(content[1..], limit);
    }
  }

  lemma {:induction false} OriginalsIn(content: seq<Item>, limit: nat, i: Item)
    requires i in Originals(content, limit)
    ensures i in content
  {
    if content != [] && !(content[0].id < limit && i == content[0]) {
      OriginalsIn(content[1..], limit, i);
    }
  }

  /**
   On every section as parsed the analysis ends. It aborts only where a value arrives that an instruction aborts on.
   Otherwise the visits are exactly the values that arrive along the flow of control, the new section is the old one
   with the edits of these visits and no others, every instruction of the old section was itself handled in some state,
   and the visited map is that of the visits made.
   */
  method RebasifyText(content: seq<Item>, nextId: nat, env: Env)
    returns (ok: bool, after: seq<Item>, visited: map<nat, seq<Value>>, cleared: seq<nat>, rebasees: seq<nat>,
             ghost trace: seq<Met>)
    requires Tiled(content) && UniqueIds(content) && TargetsBelow(content, nextId)
    ensures !ok ==> Fails(after, trace, env) && after == Replay(Text(content, nextId, [], []), trace, env).content
    ensures ok ==> Settled(after, trace, env)
    ensures ok ==>
      var t := Replay(Text(content, nextId, [], []), trace, env);
      after == t.content && cleared == t.cleared && rebasees == t.rebasees
    ensures ok ==> Originals(after, nextId) == content
    ensures ok ==> forall i :: i in content && i.inst.Some? ==> i in after && i.vmaddr in visited && Handled(trace, i)
    ensures ok ==> visited == Recorded(trace)
  {
    FlowStarts(content, env, nextId);
    assert forall k :: 0 <= k < |content| ==> Below(content[k], nextId);
    TiledIsTidy(content, nextId);
    StartsWithin(content, nextId);
    AllOriginal(content, nextId);
    hide Inv, Tiled, Tidy, Originals, BoundsOf, Handled, Flow, Settled, Fails, Replay;
    var a := new Analysis(content, nextId);
    ok := a.Run(env, nextId, BoundsOf(content), {});
    after, visited, trace := a.content, a.visited, a.trace;
    cleared, rebasees := a.cleared, a.rebasees;
    if ok {
      forall i | i in content && i.inst.Some? ensures i in after && i.vmaddr in visited && Handled(trace, i) {
        OriginalsIn(after, nextId, i);
        var k :| 0 <= k < |after| && after[k] == i;
        assert Original(after[k], nextId);
      }
    }
  }
}
