/**
 The pointer resolver of include/core/resolve.hh. A key names an object that may not exist yet; `Resolve` asks
 for a pointer `P` to be set to it and a callback to be run, `Add` supplies the object. `cells` is the memory
 behind the pointers and `ran` the callbacks run so far.
 */
module Resolver {
  import opened Wrappers

  datatype Event<T, U, P> = Added(key: T, pointee: U) | Asked(key: T, pointer: P)

  datatype State<T, U, P> = State(found: map<T, U>, todo: map<T, seq<P>>, cells: map<P, U>, ran: seq<(P, U)>)

  function Fill<U, P>(cells: map<P, U>, ps: seq<P>, u: U): map<P, U>
  {
    cells + map p | p in ps :: u
  }

  function Calls<U, P>(ps: seq<P>, u: U): (s: seq<(P, U)>)
    ensures |s| == |ps|
  {
    seq(|ps|, i requires 0 <= i < |ps| => (ps[i], u))
  }

  /** One call. In eager mode `Add` serves everyone waiting for the key; both modes serve a known key at once. */
  function Step<T, U, P>(eager: bool, s: State<T, U, P>, e: Event<T, U, P>): State<T, U, P>
  {
    match e
    case Added(key, u) =>
      var s' := if eager && key in s.todo then
          s.(cells := Fill(s.cells, s.todo[key], u), ran := s.ran + Calls(s.todo[key], u), todo := s.todo - {key})
        else s;
      if key in s.found then s' else s'.(found := s'.found[key := u])
    case Asked(key, p) =>
      if key in s.found then s.(cells := s.cells[p := s.found[key]], ran := s.ran + [(p, s.found[key])])
      else s.(todo := s.todo[key := (if key in s.todo then s.todo[key] else []) + [p]])
  }

  function Run<T, U, P>(eager: bool, es: seq<Event<T, U, P>>): State<T, U, P>
  {
    if es == [] then State(map[], map[], map[], [])
    else Step(eager, Run(eager, es[..|es| - 1]), es[|es| - 1])
  }

  // ----- what a history of calls means, whatever its order -----

  /** Which object each key names; the original asserts that a key is never given a second one. */
  function Supplied<T, U, P>(es: seq<Event<T, U, P>>): map<T, U>
  {
    if es == [] then map[]
    else
      var e, before := es[|es| - 1], Supplied(es[..|es| - 1]);
      if e.Added? && e.key !in before then before[e.key := e.pointee] else before
  }

  /** Which key each pointer asked for. */
  function Wanted<T, U, P>(es: seq<Event<T, U, P>>): map<P, T>
  {
    if es == [] then map[]
    else
      var e, before := es[|es| - 1], Wanted(es[..|es| - 1]);
      if e.Asked? then before[e.pointer := e.key] else before
  }

  /** One pointee per key, and every pointer registered once. */
  predicate Coherent<T(==), U(==), P(==)>(es: seq<Event<T, U, P>>)
  {
    es != [] ==>
      var e, pre := es[|es| - 1], es[..|es| - 1];
      && Coherent(pre)
      && (e.Added? && e.key in Supplied(pre) ==> Supplied(pre)[e.key] == e.pointee)
      && (e.Asked? ==> e.pointer !in Wanted(pre))
  }

  /** Each pointer ends up at its key's pointee if the key was ever added, and is untouched otherwise. */
  function Outcome<T(==), U, P>(es: seq<Event<T, U, P>>): map<P, U>
  {
    var supplied, wanted := Supplied(es), Wanted(es);
    map p | p in wanted && wanted[p] in supplied :: supplied[wanted[p]]
  }

  ghost predicate Waits<T, U, P>(s: State<T, U, P>, key: T, p: P)
  {
    key in s.todo && p in s.todo[key]
  }

  /** Every registered pointer is either set to its key's pointee or still waiting for its key, never both. */
  ghost predicate Accounts<T(!new), U, P(!new)>(supplied: map<T, U>, wanted: map<P, T>, s: State<T, U, P>)
  {
    && s.found == supplied
    && (forall p :: p in s.cells ==> p in wanted && wanted[p] in supplied && s.cells[p] == supplied[wanted[p]])
    && (forall key, p :: Waits(s, key, p) ==> p in wanted && wanted[p] == key && p !in s.cells)
    && (forall p :: p in wanted ==> p in s.cells || Waits(s, wanted[p], p))
  }

  ghost predicate NonePending<T(!new), U, P>(s: State<T, U, P>)
  {
    forall key :: key in s.found ==> key !in s.todo
  }

  ghost predicate NoRepeat<X>(xs: seq<X>)
  {
    forall i, j :: 0 <= i < j < |xs| ==> xs[i] != xs[j]
  }

  /** The callbacks run so far: once for each pointer that is set, with the value it was set to. */
  ghost predicate RanOnce<T(!new), U(!new), P(!new)>(s: State<T, U, P>)
  {
    && NoRepeat(s.ran)
    && (forall p, u :: (p, u) in s.ran <==> p in s.cells && s.cells[p] == u)
    && (forall key :: key in s.todo ==> NoRepeat(s.todo[key]))
  }

  lemma {:induction false} AskAccounts<T(!new), U, P(!new)>(
    eager: bool, supplied: map<T, U>, wanted: map<P, T>, s: State<T, U, P>, key: T, p: P)
    requires Accounts(supplied, wanted, s) && p !in wanted && (eager ==> NonePending(s))
    ensures var s' := Step(eager, s, Asked(key, p));
      Accounts(supplied, wanted[p := key], s') && (eager ==> NonePending(s'))
  {
    var s' := Step(eager, s, Asked(key, p));
    if key !in s.found {
      var line := if key in s.todo then s.todo[key] else [];
      assert s'.todo[key] == line + [p];
      forall k, q ensures Waits(s', k, q) <==> Waits(s, k, q) || (k == key && q == p) {
        assert q in line + [p] <==> q in line || q == p;
      }
      forall q | q in wanted[p := key] ensures q in s'.cells || Waits(s', wanted[p := key][q], q) {
        assert q != p ==> q in s.cells || Waits(s, wanted[q], q);
      }
    } else {
      forall k, q ensures Waits(s', k, q) <==> Waits(s, k, q) {
      }
      assert !Waits(s, key, p);
    }
  }

  lemma {:induction false} AskRanOnce<T(!new), U(!new), P(!new)>(
    eager: bool, supplied: map<T, U>, wanted: map<P, T>, s: State<T, U, P>, key: T, p: P)
    requires Accounts(supplied, wanted, s) && p !in wanted && RanOnce(s)
    ensures RanOnce(Step(eager, s, Asked(key, p)))
  {
    var s' := Step(eager, s, Asked(key, p));
    if key in s.found {
      var c := (p, s.found[key]);
      assert c !in s.ran;
      forall q, u ensures (q, u) in s'.ran <==> q in s'.cells && s'.cells[q] == u {
        assert (q, u) in s'.ran <==> (q, u) in s.ran || (q, u) == c;
      }
    } else {
      assert !Waits(s, key, p);
    }
  }

  lemma {:induction false} AddAccounts<T(!new), U, P(!new)>(
    eager: bool, supplied: map<T, U>, wanted: map<P, T>, s: State<T, U, P>, key: T, u: U)
    requires Accounts(supplied, wanted, s) && (eager ==> NonePending(s))
    requires key in supplied ==> supplied[key] == u
    ensures var s' := Step(eager, s, Added(key, u));
      Accounts(supplied[key := u], wanted, s') && (eager ==> NonePending(s'))
  {
    var s' := Step(eager, s, Added(key, u));
    if eager && key in s.todo {
      forall p | p in wanted ensures p in s'.cells || Waits(s', wanted[p], p) {
        assert p in s.cells || Waits(s, wanted[p], p);
      }
      forall k, p | Waits(s', k, p) ensures p in wanted && wanted[p] == k && p !in s'.cells {
        assert Waits(s, k, p);
        assert p in s.todo[key] ==> Waits(s, key, p);
      }
      forall p | p in s'.cells
        ensures p in wanted && wanted[p] in s'.found && s'.cells[p] == s'.found[wanted[p]]
      {
        assert p in s.todo[key] ==> Waits(s, key, p);
      }
    } else {
      assert forall k, p :: Waits(s', k, p) <==> Waits(s, k, p);
    }
  }

  lemma {:induction false} CallsFacts<U, P>(ps: seq<P>, u: U, p: P, v: U)
    ensures (p, v) in Calls(ps, u) <==> p in ps && v == u
    ensures NoRepeat(ps) ==> NoRepeat(Calls(ps, u))
  {
    if p in ps {
      var i :| 0 <= i < |ps| && ps[i] == p;
      assert Calls(ps, u)[i] == (p, u);
    }
    if NoRepeat(ps) {
      forall i, j | 0 <= i < j < |ps| ensures Calls(ps, u)[i] != Calls(ps, u)[j] {
        assert ps[i] != ps[j];
      }
    }
  }

  lemma {:induction false} FillRanOnce<T(!new), U(!new), P(!new)>(s: State<T, U, P>, s': State<T, U, P>, ps: seq<P>, u: U)
    requires RanOnce(s) && NoRepeat(ps) && forall p :: p in ps ==> p !in s.cells
    requires s'.cells == Fill(s.cells, ps, u) && s'.ran == s.ran + Calls(ps, u)
    requires forall k :: k in s'.todo ==> k in s.todo && s'.todo[k] == s.todo[k]
    ensures RanOnce(s')
  {
    var calls := Calls(ps, u);
    forall p, v ensures (p, v) in s'.ran <==> p in s'.cells && s'.cells[p] == v {
      CallsFacts(ps, u, p, v);
      assert (p, v) in s'.ran <==> (p, v) in s.ran || (p, v) in calls;
    }
    forall i, j | 0 <= i < j < |s'.ran| ensures s'.ran[i] != s'.ran[j] {
      if i < |s.ran| <= j {
        var (p, v) := s'.ran[j];
        assert (p, v) == calls[j - |s.ran|] && (p, v) in calls;
        CallsFacts(ps, u, p, v);
        assert p !in s.cells && (p, v) !in s.ran;
        assert s'.ran[i] == s.ran[i] && s.ran[i] in s.ran;
      } else if |s.ran| <= i {
        CallsFacts(ps, u, s'.ran[i].0, u);
        assert s'.ran[i] == calls[i - |s.ran|] && s'.ran[j] == calls[j - |s.ran|];
      }
    }
  }

  lemma {:induction false} AddRanOnce<T(!new), U(!new), P(!new)>(
    eager: bool, supplied: map<T, U>, wanted: map<P, T>, s: State<T, U, P>, key: T, u: U)
    requires Accounts(supplied, wanted, s) && RanOnce(s)
    ensures RanOnce(Step(eager, s, Added(key, u)))
  {
    var s' := Step(eager, s, Added(key, u));
    if eager && key in s.todo {
      forall p | p in s.todo[key] ensures p !in s.cells {
        assert Waits(s, key, p);
      }
      FillRanOnce(s, s', s.todo[key], u);
    }
  }

  /** What holds after any coherent history, in either mode. */
  lemma {:induction false} RunAccounts<T(!new), U(!new), P(!new)>(eager: bool, es: seq<Event<T, U, P>>)
    requires Coherent(es)
    ensures Accounts(Supplied(es), Wanted(es), Run(eager, es)) && RanOnce(Run(eager, es))
    ensures eager ==> NonePending(Run(eager, es))
  {
    if es == [] {
    } else {
      var pre, e := es[..|es| - 1], es[|es| - 1];
      RunAccounts(eager, pre);
      match e
      case Added(key, u) =>
        AddAccounts(eager, Supplied(pre), Wanted(pre), Run(eager, pre), key, u);
        AddRanOnce(eager, Supplied(pre), Wanted(pre), Run(eager, pre), key, u);
        assert Supplied(es) == Supplied(pre)[key := u];
      case Asked(key, p) =>
        AskAccounts(eager, Supplied(pre), Wanted(pre), Run(eager, pre), key, p);
        AskRanOnce(eager, Supplied(pre), Wanted(pre), Run(eager, pre), key, p);
    }
  }

  /** Eager mode: the result depends on which calls were made, not on how they were interleaved. */
  lemma {:induction false} EagerOutcome<T(!new), U(!new), P(!new)>(es: seq<Event<T, U, P>>)
    requires Coherent(es)
    ensures Run(true, es).cells == Outcome(es)
  {
    RunAccounts(true, es);
    var s := Run(true, es);
    forall p | p in Wanted(es) ensures p in s.cells <==> p in Outcome(es) {
      assert p in s.cells || Waits(s, Wanted(es)[p], p);
    }
  }

  lemma {:induction false} SuppliedIff<T(!new), U(!new), P(!new)>(es: seq<Event<T, U, P>>, key: T, u: U)
    requires Coherent(es)
    ensures (key in Supplied(es) && Supplied(es)[key] == u) <==> Added(key, u) in es
  {
    if es == [] {
    } else {
      SuppliedIff(es[..|es| - 1], key, u);
      assert es == es[..|es| - 1] + [es[|es| - 1]];
    }
  }

  lemma {:induction false} WantedIff<T(!new), U(!new), P(!new)>(es: seq<Event<T, U, P>>, key: T, p: P)
    requires Coherent(es)
    ensures (p in Wanted(es) && Wanted(es)[p] == key) <==> Asked(key, p) in es
  {
    if es == [] {
    } else {
      WantedIff(es[..|es| - 1], key, p);
      assert es == es[..|es| - 1] + [es[|es| - 1]];
      if es[|es| - 1].Asked? && es[|es| - 1].pointer == p && Asked(key, p) in es[..|es| - 1] {
        assert false;
      }
    }
  }

  /** Two histories with the same calls set the same pointers to the same objects. */
  lemma {:induction false} OrderIrrelevant<T(!new), U(!new), P(!new)>(es: seq<Event<T, U, P>>, fs: seq<Event<T, U, P>>)
    requires Coherent(es) && Coherent(fs) && forall e :: e in es <==> e in fs
    ensures Run(true, es).cells == Run(true, fs).cells
  {
    EagerOutcome(es);
    EagerOutcome(fs);
    assert Supplied(es) == Supplied(fs) by {
      forall key | key in Supplied(es) ensures key in Supplied(fs) && Supplied(fs)[key] == Supplied(es)[key] {
        SuppliedIff(es, key, Supplied(es)[key]);
        SuppliedIff(fs, key, Supplied(es)[key]);
      }
      forall key | key in Supplied(fs) ensures key in Supplied(es) {
        SuppliedIff(fs, key, Supplied(fs)[key]);
        SuppliedIff(es, key, Supplied(fs)[key]);
      }
    }
    assert Wanted(es) == Wanted(fs) by {
      forall p | p in Wanted(es) ensures p in Wanted(fs) && Wanted(fs)[p] == Wanted(es)[p] {
        WantedIff(es, Wanted(es)[p], p);
        WantedIff(fs, Wanted(es)[p], p);
      }
      forall p | p in Wanted(fs) ensures p in Wanted(es) {
        WantedIff(fs, Wanted(fs)[p], p);
        WantedIff(es, Wanted(fs)[p], p);
      }
    }
  }

  lemma {:induction false} CoherentSnoc<T(!new), U(!new), P(!new)>(es: seq<Event<T, U, P>>, e: Event<T, U, P>)
    ensures Supplied(es + [e]) ==
            if e.Added? && e.key !in Supplied(es) then Supplied(es)[e.key := e.pointee] else Supplied(es)
    ensures Wanted(es + [e]) == if e.Asked? then Wanted(es)[e.pointer := e.key] else Wanted(es)
    ensures Coherent(es + [e]) <==>
      && Coherent(es)
      && (e.Added? && e.key in Supplied(es) ==> Supplied(es)[e.key] == e.pointee)
      && (e.Asked? ==> e.pointer !in Wanted(es))
  {
    assert (es + [e])[..|es|] == es;
  }

  lemma {:induction false} NoHistory<T(!new), U(!new), P(!new)>()
    ensures Supplied<T, U, P>([]) == map[] && Wanted<T, U, P>([]) == map[]
  {
  }

  /** Two histories over different keys and pointers, one after the other. */
  lemma {:induction false} CoherentAppend<T(!new), U(!new), P(!new)>(es: seq<Event<T, U, P>>, fs: seq<Event<T, U, P>>)
    requires Coherent(es) && Coherent(fs)
    requires Supplied(es).Keys !! Supplied(fs).Keys && Wanted(es).Keys !! Wanted(fs).Keys
    ensures Coherent(es + fs)
    ensures Supplied(es + fs) == Supplied(es) + Supplied(fs) && Wanted(es + fs) == Wanted(es) + Wanted(fs)
    decreases |fs|
  {
    hide *;
    if fs == [] {
      NoHistory<T, U, P>();
      assert es + fs == es;
    } else {
      var pre, e := fs[..|fs| - 1], fs[|fs| - 1];
      assert fs == pre + [e] && es + fs == es + pre + [e];
      CoherentSnoc(pre, e);
      CoherentAppend(es, pre);
      CoherentSnoc(es + pre, e);
    }
  }

  /** Running a history in two parts. */
  lemma {:induction false} RunAppend<T, U, P>(eager: bool, es: seq<Event<T, U, P>>, fs: seq<Event<T, U, P>>)
    ensures RunFrom(eager, Run(eager, es), fs) == Run(eager, es + fs)
    decreases |fs|
  {
    if fs == [] {
      assert es + fs == es;
    } else {
      assert (es + [fs[0]])[..|es|] == es;
      RunAppend(eager, es + [fs[0]], fs[1..]);
      assert es + [fs[0]] + fs[1..] == es + fs;
    }
  }

  // ----- the lazy pass -----

  /** do_resolve: everyone waiting for a known key is served, and all waiting lists are dropped. */
  ghost predicate Drained<T(!new), U, P(!new)>(s: State<T, U, P>, s': State<T, U, P>)
  {
    && s'.found == s.found && s'.todo == map[]
    && (forall p :: p in s.cells ==> p in s'.cells && s'.cells[p] == s.cells[p])
    && (forall key, p :: Waits(s, key, p) && key in s.found ==> p in s'.cells && s'.cells[p] == s.found[key])
    && (forall p :: p in s'.cells ==> p in s.cells || exists key :: key in s.found && Waits(s, key, p))
  }

  /** Lazy mode reaches the same pointers as eager mode once do_resolve has run. */
  lemma {:induction false} LazyOutcome<T(!new), U(!new), P(!new)>(es: seq<Event<T, U, P>>, s': State<T, U, P>)
    requires Coherent(es) && Drained(Run(false, es), s')
    ensures s'.cells == Outcome(es) == Run(true, es).cells
  {
    RunAccounts(false, es);
    EagerOutcome(es);
    var s := Run(false, es);
    forall p | p in Outcome(es) ensures p in s'.cells && s'.cells[p] == Outcome(es)[p] {
      assert p in s.cells || Waits(s, Wanted(es)[p], p);
    }
    forall p | p in s'.cells ensures p in Outcome(es) {
      if p !in s.cells {
        var key :| key in s.found && Waits(s, key, p);
      }
    }
  }

  function RunFrom<T, U, P>(eager: bool, s: State<T, U, P>, es: seq<Event<T, U, P>>): State<T, U, P>
    decreases |es|
  {
    if es == [] then s else RunFrom(eager, Step(eager, s, es[0]), es[1..])
  }

  /** A pointer that is set stays set. */
  lemma {:induction false} StaysSet<T(!new), U, P(!new)>(eager: bool, s: State<T, U, P>, es: seq<Event<T, U, P>>, p: P)
    requires p in s.cells
    ensures p in RunFrom(eager, s, es).cells
    decreases |es|
  {
    if es == [] {
    } else {
      assert p in Step(eager, s, es[0]).cells;
      StaysSet(eager, Step(eager, s, es[0]), es[1..], p);
    }
  }

  /** A pointer still unset when do_resolve drops it stays unset, even if its key is added later. */
  lemma {:induction false} DroppedForGood<T(!new), U, P(!new)>(
    eager: bool, s: State<T, U, P>, es: seq<Event<T, U, P>>, p: P)
    requires p !in s.cells && forall key :: !Waits(s, key, p)
    requires forall key :: Asked(key, p) !in es
    ensures p !in RunFrom(eager, s, es).cells
    decreases |es|
  {
    if es == [] {
    } else {
      var s1 := Step(eager, s, es[0]);
      assert es[0] in es;
      forall key ensures !Waits(s1, key, p) {
        assert !Waits(s, key, p);
      }
      assert p !in s1.cells by {
        if es[0].Added? && eager && es[0].key in s.todo {
          assert !Waits(s, es[0].key, p);
        }
      }
      DroppedForGood(eager, s1, es[1..], p);
    }
  }

  /**
   do_resolve forgets a pointer exactly when its key was not added before: whatever happens later, unless someone
   asks for the pointer again, it is set if and only if its key had been added by then.
   */
  lemma {:induction false} ResolvedIff<T(!new), U(!new), P(!new)>(
    es: seq<Event<T, U, P>>, s': State<T, U, P>, eager: bool, fs: seq<Event<T, U, P>>, p: P)
    requires Coherent(es) && Drained(Run(false, es), s') && p in Wanted(es)
    requires forall key :: Asked(key, p) !in fs
    ensures p in RunFrom(eager, s', fs).cells <==> Wanted(es)[p] in Supplied(es)
  {
    LazyOutcome(es, s');
    assert p in s'.cells <==> Wanted(es)[p] in Supplied(es);
    assert forall key :: !Waits(s', key, p);
    hide Run, RunFrom, Drained, Outcome, Supplied, Wanted;
    if p in s'.cells {
      StaysSet(eager, s', fs, p);
    } else {
      DroppedForGood(eager, s', fs, p);
    }
  }

  // ----- the loop of do_resolve -----

  /** Waiting pointers are unset and wait for one key only, as after every coherent history. */
  ghost predicate OneKey<T(!new), U, P(!new)>(s: State<T, U, P>)
  {
    && (forall k, p :: Waits(s, k, p) ==> p !in s.cells)
    && (forall k, l, p :: Waits(s, k, p) && Waits(s, l, p) ==> k == l)
  }

  /** `p` waits in `s0` for a known key whose list is gone from `s`, and has that key's pointee. */
  ghost predicate ServedBy<T, U(!new), P>(s0: State<T, U, P>, s: State<T, U, P>, k: T, p: P)
  {
    k in s.found && k !in s.todo && Waits(s0, k, p) && p in s.cells && s.cells[p] == s.found[k]
  }

  ghost predicate Served<T(!new), U(!new), P>(s0: State<T, U, P>, s: State<T, U, P>, p: P)
  {
    exists k :: ServedBy(s0, s, k, p)
  }

  /** Between `s0` and the end of do_resolve. */
  ghost predicate Draining<T(!new), U(!new), P(!new)>(s0: State<T, U, P>, s: State<T, U, P>)
  {
    && s.found == s0.found
    && (forall k :: k in s.todo ==> k in s0.todo && s.todo[k] == s0.todo[k])
    && (forall p :: p in s0.cells ==> p in s.cells)
    && (forall p :: p in s.cells ==> (p in s0.cells && s.cells[p] == s0.cells[p]) || Served(s0, s, p))
    && (forall k, p :: Waits(s0, k, p) && k in s.found && k !in s.todo ==> Served(s0, s, p))
  }

  /** The state after one waiting list was taken off. */
  function TakenOff<T(==), U, P>(s: State<T, U, P>, key: T): State<T, U, P>
    requires key in s.todo
  {
    if key in s.found then
      State(s.found, s.todo - {key}, Fill(s.cells, s.todo[key], s.found[key]),
            s.ran + Calls(s.todo[key], s.found[key]))
    else s.(todo := s.todo - {key})
  }

  lemma {:induction false} StillServed<T(!new), U(!new), P(!new)>(
    s0: State<T, U, P>, s: State<T, U, P>, key: T, p: P)
    requires Draining(s0, s) && key in s.todo && Served(s0, s, p)
    ensures Served(s0, TakenOff(s, key), p)
  {
    var s' := TakenOff(s, key);
    var k :| ServedBy(s0, s, k, p);
    if key in s.found && p in s.todo[key] {
      assert Waits(s0, key, p) && ServedBy(s0, s', key, p);
    } else {
      assert ServedBy(s0, s', k, p);
    }
  }

  lemma {:induction false} DrainStep<T(!new), U(!new), P(!new)>(s0: State<T, U, P>, s: State<T, U, P>, key: T)
    requires Draining(s0, s) && key in s.todo
    ensures Draining(s0, TakenOff(s, key))
  {
    var s' := TakenOff(s, key);
    forall p | p in s'.cells ensures (p in s0.cells && s'.cells[p] == s0.cells[p]) || Served(s0, s', p) {
      if key in s.found && p in s.todo[key] {
        assert Waits(s0, key, p) && ServedBy(s0, s', key, p);
      } else if Served(s0, s, p) {
        StillServed(s0, s, key, p);
      }
    }
    forall k, p | Waits(s0, k, p) && k in s'.found && k !in s'.todo ensures Served(s0, s', p) {
      if k == key {
        assert ServedBy(s0, s', key, p);
      } else {
        StillServed(s0, s, key, p);
      }
    }
  }

  lemma {:induction false} DrainRan<T(!new), U(!new), P(!new)>(s0: State<T, U, P>, s: State<T, U, P>, key: T)
    requires Draining(s0, s) && OneKey(s0) && RanOnce(s) && key in s.todo
    ensures RanOnce(TakenOff(s, key))
  {
    if key in s.found {
      forall p | p in s.todo[key] ensures p !in s.cells {
        assert Waits(s0, key, p);
        forall k ensures !ServedBy(s0, s, k, p) {
        }
      }
      FillRanOnce(s, TakenOff(s, key), s.todo[key], s.found[key]);
    }
  }

  /** Where everyone waits for one key, the end of the loop serves exactly those whose key is known. */
  lemma {:induction false} DrainEnds<T(!new), U(!new), P(!new)>(s0: State<T, U, P>, s: State<T, U, P>)
    requires Draining(s0, s) && OneKey(s0) && s.todo == map[]
    ensures Drained(s0, s)
  {
    forall p | p in s0.cells ensures s.cells[p] == s0.cells[p] {
      forall k ensures !ServedBy(s0, s, k, p) {
      }
    }
    forall key, p | Waits(s0, key, p) && key in s0.found ensures p in s.cells && s.cells[p] == s0.found[key] {
      var k :| ServedBy(s0, s, k, p);
      assert k == key;
    }
    forall p | p in s.cells ensures p in s0.cells || exists key :: key in s0.found && Waits(s0, key, p) {
      if p !in s0.cells {
        var k :| ServedBy(s0, s, k, p);
      }
    }
  }

  /** Every coherent history leaves each waiting pointer unset and with one key. */
  lemma {:induction false} RunOneKey<T(!new), U(!new), P(!new)>(eager: bool, es: seq<Event<T, U, P>>)
    requires Coherent(es)
    ensures OneKey(Run(eager, es)) && RanOnce(Run(eager, es))
  {
    RunAccounts(eager, es);
    hide Run, RanOnce, Supplied, Wanted, Coherent;
  }

  // ----- the object -----

  class Resolver<T(==, !new), U(==, !new), P(==, !new)> {
    const eager: bool
    var found: map<T, U>
    var todo: map<T, seq<P>>
    var cells: map<P, U>
    var ran: seq<(P, U)>

    constructor (eager: bool)
      ensures this.eager == eager && Now() == Run<T, U, P>(eager, [])
    {
      this.eager := eager;
      found, todo, cells, ran := map[], map[], map[], [];
    }

    function Now(): State<T, U, P>
      reads this
    {
      State(found, todo, cells, ran)
    }

    static lemma {:induction false} FillSnoc(before: map<P, U>, ps: seq<P>, p: P, u: U)
      ensures Fill(before, ps + [p], u) == Fill(before, ps, u)[p := u]
      ensures Calls(ps + [p], u) == Calls(ps, u) + [(p, u)]
    {
    }

    /** Sets every pointer of a waiting list and runs its callback. */
    method Serve(ps: seq<P>, u: U)
      modifies this`cells, this`ran
      ensures cells == Fill(old(cells), ps, u) && ran == old(ran) + Calls(ps, u)
    {
      for i := 0 to |ps|
        invariant cells == Fill(old(cells), ps[..i], u) && ran == old(ran) + Calls(ps[..i], u)
      {
        hide *;
        FillSnoc(old(cells), ps[..i], ps[i], u);
        cells := cells[ps[i] := u];
        ran := ran + [(ps[i], u)];
        assert ps[..i + 1] == ps[..i] + [ps[i]];
      }
      assert ps[..|ps|] == ps;
    }

    /** `ok` is false where the original's assertion fails: the key already names another object. */
    method Add(key: T, pointee: U) returns (ok: bool)
      modifies this
      ensures Now() == Step(eager, old(Now()), Added(key, pointee))
      ensures ok <==> key !in old(found) || old(found)[key] == pointee
    {
      if eager && key in todo {
        Serve(todo[key], pointee);
        todo := todo - {key};
      }
      ok := key !in found || found[key] == pointee;
      if key !in found {
        found := found[key := pointee];
      }
    }

    method Resolve(key: T, p: P)
      modifies this
      ensures Now() == Step(eager, old(Now()), Asked(key, p))
    {
      if key in found {
        cells := cells[p := found[key]];
        ran := ran + [(p, found[key])];
      } else {
        todo := todo[key := (if key in todo then todo[key] else []) + [p]];
      }
    }

    /**
     Every pointer waiting for known keys gets the pointee of one of them, everything else keeps its value, and all
     waiting lists are dropped; where pointers are unset and wait for one key, each is served once.
     */
    method DoResolve()
      modifies this
      ensures Draining(old(Now()), Now()) && todo == map[]
      ensures old(OneKey(Now())) ==> Drained(old(Now()), Now())
      ensures old(OneKey(Now()) && RanOnce(Now())) ==> RanOnce(Now())
    {
      ghost var s0 := Now();
      while todo != map[]
        invariant Draining(s0, Now())
        invariant OneKey(s0) && RanOnce(s0) ==> RanOnce(Now())
        decreases |todo|
      {
        hide *;
        var key :| key in todo;
        ghost var s := Now();
        NowIs(s);
        DrainStep(s0, s, key);
        if OneKey(s0) && RanOnce(s) {
          DrainRan(s0, s, key);
        }
        TakenOffIs(s, key);
        if key in found {
          Serve(todo[key], found[key]);
        }
        todo := todo - {key};
        NowIs(Now());
        assert todo.Keys == s.todo.Keys - {key};
        assert |todo.Keys| < |s.todo.Keys|;
      }
      if OneKey(s0) {
        DrainEnds(s0, Now());
      }
    }

    lemma {:induction false} NowIs(s: State<T, U, P>)
      requires s == Now()
      ensures s == State(found, todo, cells, ran)
    {
    }
  }

  lemma {:induction false} TakenOffIs<T, U, P>(s: State<T, U, P>, key: T)
    requires key in s.todo
    ensures key in s.found ==>
      TakenOff(s, key) == State(s.found, s.todo - {key}, Fill(s.cells, s.todo[key], s.found[key]),
                                s.ran + Calls(s.todo[key], s.found[key]))
    ensures key !in s.found ==> TakenOff(s, key) == State(s.found, s.todo - {key}, s.cells, s.ran)
  {
    hide Fill, Calls;
  }
}
