/**
 The trie map of include/core/trie.hh. An iterator is a stack of positions in the child maps from the root down;
 here a sequence of child indices, empty at the end.
 */
module TrieMap {
  import opened Wrappers
  import opened Arith
  import opened Tries

  // ----- nodes and paths -----

  predicate OnPath<K, V>(t: Trie<K, V>, path: seq<nat>)
    decreases |path|
  {
    path == [] || (path[0] < |t.kids| && OnPath(t.kids[path[0]].sub, path[1..]))
  }

  function At<K, V>(t: Trie<K, V>, path: seq<nat>): Trie<K, V>
    requires OnPath(t, path)
    decreases |path|
  {
    if path == [] then t else At(t.kids[path[0]].sub, path[1..])
  }

  function KeyAt<K, V>(t: Trie<K, V>, path: seq<nat>): (key: seq<K>)
    requires OnPath(t, path)
    ensures |key| == |path|
    decreases |path|
  {
    if path == [] then [] else [t.kids[path[0]].key] + KeyAt(t.kids[path[0]].sub, path[1..])
  }

  /** A node that is worth keeping: it has a value or leads to one. */
  predicate Used<K, V>(t: Trie<K, V>)
  {
    t.value.Some? || t.kids != []
  }

  /** Every leaf below the root keeps a value, and siblings have different keys. */
  ghost predicate Live<K, V>(t: Trie<K, V>)
    decreases t
  {
    && DistinctKeys(t.kids)
    && forall i :: 0 <= i < |t.kids| ==> Used(t.kids[i].sub) && Live(t.kids[i].sub)
  }

  /** The way from a node down the first children to the first value. */
  function Descend<K, V>(t: Trie<K, V>): (path: seq<nat>)
    decreases t
  {
    if t.value.Some? || t.kids == [] then [] else [0] + Descend(t.kids[0].sub)
  }

  // ----- the stored entries in preorder -----

  function Entries<K, V>(t: Trie<K, V>, prefix: seq<K>): seq<(seq<K>, V)>
    decreases t, 1, 0
  {
    (if t.value.Some? then [(prefix, t.value.value)] else []) + KidEntries(t, 0, prefix)
  }

  /** The entries of the children from `i` on. */
  function KidEntries<K, V>(t: Trie<K, V>, i: nat, prefix: seq<K>): seq<(seq<K>, V)>
    requires i <= |t.kids|
    decreases t, 0, |t.kids| - i
  {
    if i == |t.kids| then []
    else Entries(t.kids[i].sub, prefix + [t.kids[i].key]) + KidEntries(t, i + 1, prefix)
  }

  /** The entries from the node at `path` on. */
  function From<K, V>(t: Trie<K, V>, path: seq<nat>, prefix: seq<K>): seq<(seq<K>, V)>
    requires OnPath(t, path)
    decreases |path|
  {
    if path == [] then Entries(t, prefix)
    else
      From(t.kids[path[0]].sub, path[1..], prefix + [t.kids[path[0]].key]) + KidEntries(t, path[0] + 1, prefix)
  }

  // ----- moving on -----

  /** Where a climb out of the subtree at `path` arrives: below the next sibling of the nearest ancestor with one. */
  function Climb<K, V>(t: Trie<K, V>, path: seq<nat>): (next: Option<seq<nat>>)
    requires OnPath(t, path)
    ensures next.Some? ==> next.value != []
    decreases |path|
  {
    if path == [] then None
    else
      var i := path[0];
      match Climb(t.kids[i].sub, path[1..])
      case Some(p) => Some([i] + p)
      case None => if i + 1 < |t.kids| then Some([i + 1] + Descend(t.kids[i + 1].sub)) else None
  }

  /** The position after `path` in preorder. */
  function Advance<K, V>(t: Trie<K, V>, path: seq<nat>): Option<seq<nat>>
    requires OnPath(t, path)
  {
    var node := At(t, path);
    if node.kids != [] then Some(path + [0] + Descend(node.kids[0].sub)) else Climb(t, path)
  }

  lemma {:induction false} DescendOnPath<K, V>(t: Trie<K, V>)
    ensures OnPath(t, Descend(t))
    ensures Used(t) && Live(t) ==> At(t, Descend(t)).value.Some?
    decreases t
  {
    if !(t.value.Some? || t.kids == []) {
      DescendOnPath(t.kids[0].sub);
    }
  }

  /** Descending skips no entry. */
  lemma {:induction false} DescendFrom<K, V>(t: Trie<K, V>, prefix: seq<K>)
    ensures OnPath(t, Descend(t)) && From(t, Descend(t), prefix) == Entries(t, prefix)
    decreases t
  {
    if !(t.value.Some? || t.kids == []) {
      DescendFrom(t.kids[0].sub, prefix + [t.kids[0].key]);
      assert ([0] + Descend(t.kids[0].sub))[1..] == Descend(t.kids[0].sub);
    }
  }

  lemma {:induction false} FromStep<K, V>(t: Trie<K, V>, i: nat, rest: seq<nat>, prefix: seq<K>)
    requires i < |t.kids| && OnPath(t.kids[i].sub, rest)
    ensures OnPath(t, [i] + rest) && At(t, [i] + rest) == At(t.kids[i].sub, rest)
    ensures From(t, [i] + rest, prefix) ==
            From(t.kids[i].sub, rest, prefix + [t.kids[i].key]) + KidEntries(t, i + 1, prefix)
    ensures KeyAt(t, [i] + rest) == [t.kids[i].key] + KeyAt(t.kids[i].sub, rest)
  {
    assert ([i] + rest)[1..] == rest;
  }

  lemma {:induction false} ClimbStep<K, V>(t: Trie<K, V>, i: nat, rest: seq<nat>)
    requires i < |t.kids| && OnPath(t.kids[i].sub, rest)
    ensures OnPath(t, [i] + rest)
    ensures Climb(t, [i] + rest) ==
      match Climb(t.kids[i].sub, rest)
      case Some(p) => Some([i] + p)
      case None => if i + 1 < |t.kids| then Some([i + 1] + Descend(t.kids[i + 1].sub)) else None
  {
    assert ([i] + rest)[1..] == rest;
  }

  /** Entering a child at its first value. */
  lemma {:induction false} EnterFrom<K, V>(t: Trie<K, V>, i: nat, prefix: seq<K>)
    requires i < |t.kids|
    ensures OnPath(t, [i] + Descend(t.kids[i].sub))
    ensures From(t, [i] + Descend(t.kids[i].sub), prefix) == KidEntries(t, i, prefix)
  {
    DescendFrom(t.kids[i].sub, prefix + [t.kids[i].key]);
    FromStep(t, i, Descend(t.kids[i].sub), prefix);
  }

  lemma {:induction false} ClimbFrom<K, V>(t: Trie<K, V>, path: seq<nat>, prefix: seq<K>)
    requires OnPath(t, path)
    ensures Climb(t, path).Some? ==> OnPath(t, Climb(t, path).value)
    ensures From(t, path, prefix) == Entries(At(t, path), prefix + KeyAt(t, path)) +
      (if Climb(t, path).Some? then From(t, Climb(t, path).value, prefix) else [])
    decreases |path|
  {
    hide *;
    if path == [] {
      ClimbRoot(t, prefix);
    } else {
      SubPath(t, path);
      var i, rest := path[0], path[1..];
      var kid, longer := t.kids[i], prefix + [t.kids[i].key];
      NoKidEntries(t, prefix);
      FromStep(t, i, rest, prefix);
      ClimbStep(t, i, rest);
      ClimbFrom(kid.sub, rest, longer);
      assert longer + KeyAt(kid.sub, rest) == prefix + KeyAt(t, path);
      match Climb(kid.sub, rest)
      case Some(p) => FromStep(t, i, p, prefix);
      case None =>
        if i + 1 < |t.kids| {
          EnterFrom(t, i + 1, prefix);
        }
    }
  }

  lemma {:induction false} ClimbRoot<K, V>(t: Trie<K, V>, prefix: seq<K>)
    ensures OnPath(t, []) && Climb(t, []) == None
    ensures From(t, [], prefix) == Entries(At(t, []), prefix + KeyAt(t, [])) + []
  {
    assert prefix + [] == prefix;
  }

  lemma {:induction false} NoKidEntries<K, V>(t: Trie<K, V>, prefix: seq<K>)
    ensures KidEntries(t, |t.kids|, prefix) == []
  {
  }

  lemma {:induction false} SubPath<K, V>(t: Trie<K, V>, path: seq<nat>)
    requires OnPath(t, path) && path != []
    ensures path[0] < |t.kids| && OnPath(t.kids[path[0]].sub, path[1..]) && path == [path[0]] + path[1..]
  {
  }

  lemma {:induction false} AdvanceStep<K, V>(t: Trie<K, V>, i: nat, rest: seq<nat>)
    requires i < |t.kids| && OnPath(t.kids[i].sub, rest) && At(t.kids[i].sub, rest).kids != []
    ensures OnPath(t, [i] + rest) && Advance(t.kids[i].sub, rest).Some?
    ensures Advance(t, [i] + rest) == Some([i] + Advance(t.kids[i].sub, rest).value)
  {
    FromStep(t, i, rest, []);
    hide From, KidEntries;
    var down := Descend(At(t.kids[i].sub, rest).kids[0].sub);
    assert [i] + rest + [0] + down == [i] + (rest + [0] + down);
  }

  lemma {:induction false} EntriesHead<K, V>(t: Trie<K, V>, prefix: seq<K>)
    requires t.value.Some?
    ensures Entries(t, prefix) == [(prefix, t.value.value)] + KidEntries(t, 0, prefix)
    ensures t.kids == [] ==> KidEntries(t, 0, prefix) == []
  {
  }

  lemma {:induction false} RootIs<K, V>(t: Trie<K, V>, prefix: seq<K>)
    ensures OnPath(t, []) && At(t, []) == t && KeyAt(t, []) == [] && From(t, [], prefix) == Entries(t, prefix)
  {
  }

  lemma {:induction false} AdvanceIs<K, V>(t: Trie<K, V>, path: seq<nat>)
    requires OnPath(t, path)
    ensures Advance(t, path) == if At(t, path).kids == [] then Climb(t, path)
                                else Some(path + [0] + Descend(At(t, path).kids[0].sub))
  {
  }

  /** From a stored entry, `Advance` leads to the entries after it and to no other. */
  lemma {:induction false} AdvanceFrom<K, V>(t: Trie<K, V>, path: seq<nat>, prefix: seq<K>)
    requires OnPath(t, path) && At(t, path).value.Some?
    ensures Advance(t, path).Some? ==> OnPath(t, Advance(t, path).value)
    ensures From(t, path, prefix) == [(prefix + KeyAt(t, path), At(t, path).value.value)] +
      (if Advance(t, path).Some? then From(t, Advance(t, path).value, prefix) else [])
    decreases |path|
  {
    hide *;
    AdvanceIs(t, path);
    EntriesHead(At(t, path), prefix + KeyAt(t, path));
    if At(t, path).kids == [] {
      ClimbFrom(t, path, prefix);
    } else if path == [] {
      RootIs(t, prefix);
      EnterFrom(t, 0, prefix);
      assert [] + [0] + Descend(t.kids[0].sub) == [0] + Descend(t.kids[0].sub);
      assert prefix + [] == prefix;
    } else {
      SubPath(t, path);
      var i, rest := path[0], path[1..];
      var longer := prefix + [t.kids[i].key];
      FromStep(t, i, rest, prefix);
      AdvanceFrom(t.kids[i].sub, rest, longer);
      AdvanceStep(t, i, rest);
      FromStep(t, i, Advance(t.kids[i].sub, rest).value, prefix);
      assert longer + KeyAt(t.kids[i].sub, rest) == prefix + KeyAt(t, path);
    }
  }

  // ----- entries are the lookups -----

  lemma {:induction false} EntriesPrefixed<K, V>(t: Trie<K, V>, prefix: seq<K>)
    ensures forall e :: e in Entries(t, prefix) ==> prefix <= e.0
    decreases t, 1, 0
  {
    KidEntriesPrefixed(t, 0, prefix);
  }

  lemma {:induction false} KidEntriesPrefixed<K, V>(t: Trie<K, V>, i: nat, prefix: seq<K>)
    requires i <= |t.kids|
    ensures forall e :: e in KidEntries(t, i, prefix) ==>
      prefix < e.0 && exists j :: i <= j < |t.kids| && e.0[|prefix|] == t.kids[j].key
    decreases t, 0, |t.kids| - i
  {
    hide Entries;
    if i < |t.kids| {
      var longer := prefix + [t.kids[i].key];
      EntriesPrefixed(t.kids[i].sub, longer);
      KidEntriesPrefixed(t, i + 1, prefix);
      forall e | e in Entries(t.kids[i].sub, longer)
        ensures prefix < e.0 && e.0[|prefix|] == t.kids[i].key
      {
        assert longer <= e.0;
      }
    }
  }

  /** A key is stored with a value exactly when that entry is enumerated. */
  lemma {:induction false} EntryIff<K, V>(t: Trie<K, V>, prefix: seq<K>, key: seq<K>, v: V)
    requires Live(t)
    ensures (prefix + key, v) in Entries(t, prefix) <==> Lookup(t, key) == Some(v)
    decreases t, 1, 0
  {
    KidEntriesPrefixed(t, 0, prefix);
    if key == [] {
      assert prefix + [] == prefix;
    } else {
      KidEntryIff(t, 0, prefix, key, v);
      assert prefix + key != prefix;
    }
  }

  lemma {:induction false} KidEntryIff<K, V>(t: Trie<K, V>, i: nat, prefix: seq<K>, key: seq<K>, v: V)
    requires Live(t) && i <= |t.kids| && key != []
    ensures (prefix + key, v) in KidEntries(t, i, prefix) <==>
            i <= Find(t.kids, key[0]) && Lookup(t, key) == Some(v)
    decreases t, 0, |t.kids| - i
  {
    hide Entries;
    if i < |t.kids| {
      var kid, longer := t.kids[i], prefix + [t.kids[i].key];
      KidEntryIff(t, i + 1, prefix, key, v);
      if kid.key == key[0] {
        assert Find(t.kids, key[0]) == i;
        EntryIff(kid.sub, longer, key[1..], v);
        assert longer + key[1..] == prefix + key;
      } else {
        assert Find(t.kids, key[0]) != i;
        EntriesPrefixed(kid.sub, longer);
        assert (prefix + key)[|prefix|] == key[0] && longer[|prefix|] == kid.key;
      }
    }
  }

  /** No key is enumerated twice. */
  ghost predicate DistinctFirst<K, V>(s: seq<(seq<K>, V)>)
  {
    forall i, j :: 0 <= i < j < |s| ==> s[i].0 != s[j].0
  }

  lemma {:induction false} EntriesDistinct<K, V>(t: Trie<K, V>, prefix: seq<K>)
    requires Live(t)
    ensures DistinctFirst(Entries(t, prefix))
    decreases t, 1, 0
  {
    KidEntriesDistinct(t, 0, prefix);
    KidEntriesPrefixed(t, 0, prefix);
    hide KidEntries;
  }

  lemma {:induction false} KidEntriesDistinct<K, V>(t: Trie<K, V>, i: nat, prefix: seq<K>)
    requires Live(t) && i <= |t.kids|
    ensures DistinctFirst(KidEntries(t, i, prefix))
    decreases t, 0, |t.kids| - i
  {
    hide Entries;
    if i < |t.kids| {
      var longer := prefix + [t.kids[i].key];
      EntriesDistinct(t.kids[i].sub, longer);
      EntriesPrefixed(t.kids[i].sub, longer);
      KidEntriesDistinct(t, i + 1, prefix);
      KidEntriesPrefixed(t, i + 1, prefix);
      var a, b := Entries(t.kids[i].sub, longer), KidEntries(t, i + 1, prefix);
      forall x, y | 0 <= x < |a| && 0 <= y < |b| ensures a[x].0 != b[y].0 {
        assert a[x] in a && b[y] in b;
        assert longer[|prefix|] == t.kids[i].key;
      }
    }
  }

  // ----- insert -----

  /** The node for `key` gets the value unless it has one; missing children are created without values. */
  function Inserted<K(==), V>(t: Trie<K, V>, key: seq<K>, value: V): Trie<K, V>
    decreases |key|
  {
    if key == [] then (if t.value.Some? then t else t.(value := Some(value)))
    else
      var i := Find(t.kids, key[0]);
      if i == |t.kids| then t.(kids := t.kids + [Kid(key[0], Inserted(Empty(), key[1..], value))])
      else t.(kids := t.kids[i := Kid(key[0], Inserted(t.kids[i].sub, key[1..], value))])
  }

  /** Inserting stores the value under its key if the key was free, and changes no other key. */
  lemma {:induction false} InsertedLookup<K, V>(t: Trie<K, V>, key: seq<K>, value: V, k: seq<K>)
    ensures Lookup(Inserted(t, key, value), k) ==
            if k == key && Lookup(t, key).None? then Some(value) else Lookup(t, k)
    decreases |key|
  {
    if key != [] && k != [] {
      var i := Find(t.kids, key[0]);
      var below := if i == |t.kids| then Empty() else t.kids[i].sub;
      FindAfterSet(t.kids, Kid(key[0], Inserted(below, key[1..], value)), k[0]);
      if k[0] == key[0] {
        InsertedLookup(below, key[1..], value, k[1..]);
        assert k == [k[0]] + k[1..] && key == [key[0]] + key[1..];
        if i == |t.kids| {
          EmptyLookup<K, V>(k[1..]);
          EmptyLookup<K, V>(key[1..]);
        }
      }
    }
  }

  lemma {:induction false} EmptyLookup<K, V>(key: seq<K>)
    ensures Lookup<K, V>(Empty(), key) == None
  {
  }

  /** No leaf without a value appears. */
  lemma {:induction false} InsertedLive<K, V>(t: Trie<K, V>, key: seq<K>, value: V)
    requires Live(t)
    ensures Live(Inserted(t, key, value)) && Used(Inserted(t, key, value))
    decreases |key|
  {
    if key == [] {
    } else {
      var i := Find(t.kids, key[0]);
      var below := if i == |t.kids| then Empty() else t.kids[i].sub;
      assert Live<K, V>(Empty());
      InsertedLive(below, key[1..], value);
      var kids' := Inserted(t, key, value).kids;
      assert forall j :: 0 <= j < |t.kids| && j != i ==> kids'[j] == t.kids[j];
    }
  }

  // ----- erase -----

  /**
   Takes the value at `path` away, removes the nodes this leaves without value and children, and says where the
   iterator stands then: `None` if the whole of `t` is to be removed.
   */
  function Pruned<K, V>(t: Trie<K, V>, path: seq<nat>): (r: (Trie<K, V>, Option<seq<nat>>))
    requires OnPath(t, path)
    ensures r.1.None? <==> !Used(r.0)
    ensures r.1.Some? ==> OnPath(r.0, r.1.value)
    decreases |path|
  {
    if path == [] then
      var t' := t.(value := None);
      (t', if Used(t') then Some([]) else None)
    else
      var i := path[0];
      var (sub, pos) := Pruned(t.kids[i].sub, path[1..]);
      match pos
      case Some(p) =>
        assert ([i] + p)[1..] == p;
        (t.(kids := t.kids[i := t.kids[i].(sub := sub)]), Some([i] + p))
      case None =>
        var t' := t.(kids := t.kids[..i] + t.kids[i + 1..]);
        (t', if i < |t'.kids| then Some([i]) else if Used(t') then Some([]) else None)
  }

  /** Where the returned iterator points. */
  function AfterErase<K, V>(t: Trie<K, V>, path: seq<nat>): seq<nat>
    requires OnPath(t, path)
  {
    var (t', pos) := Pruned(t, path);
    if pos.None? || pos.value == [] then [] else pos.value + Descend(At(t', pos.value))
  }

  lemma {:induction false} LiveParts<K, V>(t: Trie<K, V>)
    ensures Live(t) <==>
            DistinctKeys(t.kids) && forall i :: 0 <= i < |t.kids| ==> Used(t.kids[i].sub) && Live(t.kids[i].sub)
  {
    hide Used, DistinctKeys;
  }

  lemma {:induction false} PrunedLive<K, V>(t: Trie<K, V>, path: seq<nat>)
    requires Live(t) && OnPath(t, path)
    ensures Live(Pruned(t, path).0)
    decreases |path|
  {
    if path == [] {
    } else {
      hide Live, Used;
      var i := path[0];
      LiveParts(t);
      PrunedLive(t.kids[i].sub, path[1..]);
      var (sub, pos) := Pruned(t.kids[i].sub, path[1..]);
      if pos.Some? {
        LiveParts(t.(kids := t.kids[i := t.kids[i].(sub := sub)]));
      } else {
        LiveParts(t.(kids := t.kids[..i] + t.kids[i + 1..]));
      }
    }
  }

  /** The entries of the first `n` children. */
  function Before<K, V>(t: Trie<K, V>, n: nat, prefix: seq<K>): seq<(seq<K>, V)>
    requires n <= |t.kids|
  {
    if n == 0 then [] else Before(t, n - 1, prefix) + Entries(t.kids[n - 1].sub, prefix + [t.kids[n - 1].key])
  }

  lemma {:induction false} KidEntriesSplit<K, V>(t: Trie<K, V>, n: nat, prefix: seq<K>)
    requires n <= |t.kids|
    ensures KidEntries(t, 0, prefix) == Before(t, n, prefix) + KidEntries(t, n, prefix)
    decreases n
  {
    hide Entries;
    if n == 0 {
    } else {
      KidEntriesSplit(t, n - 1, prefix);
    }
  }

  lemma {:induction false} BeforeSame<K, V>(t: Trie<K, V>, u: Trie<K, V>, n: nat, prefix: seq<K>)
    requires n <= |t.kids| && n <= |u.kids| && t.kids[..n] == u.kids[..n]
    ensures Before(t, n, prefix) == Before(u, n, prefix)
    decreases n
  {
    hide Entries;
    if n == 0 {
    } else {
      assert t.kids[n - 1] == t.kids[..n][n - 1] == u.kids[n - 1];
      assert t.kids[..n - 1] == t.kids[..n][..n - 1] == u.kids[..n - 1];
      BeforeSame(t, u, n - 1, prefix);
    }
  }

  lemma {:induction false} KidEntriesSame<K, V>(t: Trie<K, V>, i: nat, u: Trie<K, V>, j: nat, prefix: seq<K>)
    requires i <= |t.kids| && j <= |u.kids| && t.kids[i..] == u.kids[j..]
    ensures KidEntries(t, i, prefix) == KidEntries(u, j, prefix)
    decreases |t.kids| - i
  {
    hide Entries;
    assert |t.kids[i..]| == |u.kids[j..]|;
    if i < |t.kids| {
      assert t.kids[i] == t.kids[i..][0] == u.kids[j];
      assert t.kids[i + 1..] == t.kids[i..][1..] == u.kids[j + 1..];
      KidEntriesSame(t, i + 1, u, j + 1, prefix);
    }
  }

  /** The entries of a node around those of its `i`-th child. */
  function Own<K, V>(t: Trie<K, V>, prefix: seq<K>): seq<(seq<K>, V)>
  {
    if t.value.Some? then [(prefix, t.value.value)] else []
  }

  lemma {:induction false} EntriesAround<K, V>(t: Trie<K, V>, i: nat, prefix: seq<K>)
    requires i < |t.kids|
    ensures Entries(t, prefix) == Own(t, prefix) + Before(t, i, prefix) +
              Entries(t.kids[i].sub, prefix + [t.kids[i].key]) + KidEntries(t, i + 1, prefix)
  {
    KidEntriesSplit(t, i, prefix);
  }

  lemma {:induction false} EntriesWithout<K, V>(t: Trie<K, V>, i: nat, prefix: seq<K>)
    requires i < |t.kids|
    ensures Entries(t.(kids := t.kids[..i] + t.kids[i + 1..]), prefix) ==
            Own(t, prefix) + Before(t, i, prefix) + KidEntries(t, i + 1, prefix)
  {
    var u := t.(kids := t.kids[..i] + t.kids[i + 1..]);
    KidEntriesSplit(u, i, prefix);
    BeforeSame(t, u, i, prefix);
    KidEntriesSame(t, i + 1, u, i, prefix);
  }

  lemma {:induction false} EntriesReplaced<K, V>(t: Trie<K, V>, i: nat, sub: Trie<K, V>, prefix: seq<K>)
    requires i < |t.kids|
    ensures Entries(t.(kids := t.kids[i := t.kids[i].(sub := sub)]), prefix) ==
            Own(t, prefix) + Before(t, i, prefix) + Entries(sub, prefix + [t.kids[i].key]) + KidEntries(t, i + 1, prefix)
  {
    var u := t.(kids := t.kids[i := t.kids[i].(sub := sub)]);
    EntriesAround(u, i, prefix);
    BeforeSame(t, u, i, prefix);
    KidEntriesSame(t, i + 1, u, i + 1, prefix);
    hide Entries, Before, KidEntries;
  }

  /** Exactly one entry disappears from the enumeration; the others keep their order. */
  lemma {:induction false} PrunedEntries<K, V>(t: Trie<K, V>, path: seq<nat>, prefix: seq<K>)
    returns (before: seq<(seq<K>, V)>, after: seq<(seq<K>, V)>)
    requires OnPath(t, path) && At(t, path).value.Some?
    ensures Entries(t, prefix) == before + [(prefix + KeyAt(t, path), At(t, path).value.value)] + after
    ensures Entries(Pruned(t, path).0, prefix) == before + after
    decreases |path|, 1
  {
    if path == [] {
      before, after := [], KidEntries(t, 0, prefix);
      assert prefix + [] == prefix;
      KidEntriesSame(t, 0, t.(value := None), 0, prefix);
    } else {
      before, after := PrunedBelow(t, path, prefix);
    }
  }

  lemma {:induction false} PrunedBelow<K, V>(t: Trie<K, V>, path: seq<nat>, prefix: seq<K>)
    returns (before: seq<(seq<K>, V)>, after: seq<(seq<K>, V)>)
    requires path != [] && OnPath(t, path) && At(t, path).value.Some?
    ensures Entries(t, prefix) == before + [(prefix + KeyAt(t, path), At(t, path).value.value)] + after
    ensures Entries(Pruned(t, path).0, prefix) == before + after
    decreases |path|, 0
  {
    hide *;
    SubPath(t, path);
    PrunedStep(t, path);
    var i, rest := path[0], path[1..];
    var kid, longer := t.kids[i], prefix + [t.kids[i].key];
    FromStep(t, i, rest, prefix);
    var b, a := PrunedEntries(kid.sub, rest, longer);
    var (sub, pos) := Pruned(kid.sub, rest);
    EntriesAround(t, i, prefix);
    var left, right := Own(t, prefix) + Before(t, i, prefix), KidEntries(t, i + 1, prefix);
    before, after := left + b, a + right;
    assert longer + KeyAt(kid.sub, rest) == prefix + KeyAt(t, path);
    var e := [(prefix + KeyAt(t, path), At(t, path).value.value)];
    assert left + (b + e + a) + right == before + e + after;
    if pos.Some? {
      EntriesReplaced(t, i, sub, prefix);
      assert left + (b + a) + right == before + after;
    } else {
      EntriesWithout(t, i, prefix);
      UnusedEntries(sub, longer);
      assert left + right == before + after;
    }
  }

  lemma {:induction false} UnusedEntries<K, V>(t: Trie<K, V>, prefix: seq<K>)
    requires !Used(t)
    ensures Entries(t, prefix) == []
  {
  }

  lemma {:induction false} PrunedStep<K, V>(t: Trie<K, V>, path: seq<nat>)
    requires path != [] && OnPath(t, path)
    ensures
      var i := path[0];
      var (sub, pos) := Pruned(t.kids[i].sub, path[1..]);
      && (pos.None? ==> !Used(sub))
      && Pruned(t, path).0 ==
         if pos.Some? then t.(kids := t.kids[i := t.kids[i].(sub := sub)])
         else t.(kids := t.kids[..i] + t.kids[i + 1..])
  {
  }

  /** Erasing what `begin` points to leaves the iterator where `begin` of the smaller trie points. */
  lemma {:induction false} EraseFirst<K, V>(t: Trie<K, V>)
    ensures OnPath(t, Descend(t))
    ensures var (t', pos) := Pruned(t, Descend(t));
      pos.Some? ==> pos.value + Descend(At(t', pos.value)) == Descend(t')
    decreases t
  {
    DescendOnPath(t);
    if t.value.Some? || t.kids == [] {
      var t' := Pruned(t, []).0;
      assert [] + Descend(t') == Descend(t');
    } else {
      var kid := t.kids[0];
      EraseFirst(kid.sub);
      assert ([0] + Descend(kid.sub))[1..] == Descend(kid.sub);
      var (t', pos) := Pruned(t, Descend(t));
      var (sub, p) := Pruned(kid.sub, Descend(kid.sub));
      if p.Some? {
        assert ([0] + p.value)[1..] == p.value;
        assert [0] + p.value + Descend(At(sub, p.value)) == [0] + (p.value + Descend(At(sub, p.value)));
      } else if pos.Some? {
        assert At(t', [0]) == At(t'.kids[0].sub, []) by { assert [0][1..] == []; }
      }
    }
  }

  // ----- the loop of erase, from the leaf up -----

  function Replace<K, V>(t: Trie<K, V>, path: seq<nat>, node: Trie<K, V>): (r: Trie<K, V>)
    requires OnPath(t, path)
    ensures OnPath(r, path) && At(r, path) == node
    decreases |path|
  {
    if path == [] then node
    else t.(kids := t.kids[path[0] := t.kids[path[0]].(sub := Replace(t.kids[path[0]].sub, path[1..], node))])
  }

  function WithoutKid<K, V>(t: Trie<K, V>, i: nat): Trie<K, V>
    requires i < |t.kids|
  {
    t.(kids := t.kids[..i] + t.kids[i + 1..])
  }

  lemma {:induction false} SnocPath<K, V>(t: Trie<K, V>, q: seq<nat>, i: nat)
    ensures OnPath(t, q + [i]) <==> OnPath(t, q) && i < |At(t, q).kids|
    ensures OnPath(t, q + [i]) ==> At(t, q + [i]) == At(t, q).kids[i].sub
    decreases |q|
  {
    if q == [] {
      assert [i][1..] == [] && q + [i] == [i];
    } else {
      assert (q + [i])[1..] == q[1..] + [i];
      if q[0] < |t.kids| {
        SnocPath(t.kids[q[0]].sub, q[1..], i);
      }
    }
  }

  /** One removal after another up the stack until a node is used or a later sibling is found. */
  function PruneUp<K, V>(t: Trie<K, V>, path: seq<nat>): (r: (Trie<K, V>, seq<nat>))
    requires OnPath(t, path)
    ensures OnPath(r.0, r.1)
    decreases |path|
  {
    if path == [] || Used(At(t, path)) then (t, path)
    else
      var q, i := path[..|path| - 1], path[|path| - 1];
      assert path == q + [i];
      SnocPath(t, q, i);
      var t' := Replace(t, q, WithoutKid(At(t, q), i));
      if i == |At(t', q).kids| then PruneUp(t', q)
      else
        SnocPath(t', q, i);
        (t', path)
  }

  lemma {:induction false} PruneUpDone<K, V>(t: Trie<K, V>, path: seq<nat>)
    requires OnPath(t, path) && (path == [] || Used(At(t, path)))
    ensures PruneUp(t, path) == (t, path)
  {
  }

  lemma {:induction false} PruneUpSnoc<K, V>(t: Trie<K, V>, q: seq<nat>, j: nat)
    requires OnPath(t, q + [j]) && !Used(At(t, q + [j]))
    ensures OnPath(t, q) && j < |At(t, q).kids|
    ensures
      var t' := Replace(t, q, WithoutKid(At(t, q), j));
      PruneUp(t, q + [j]) == if j == |At(t, q).kids| - 1 then PruneUp(t', q) else (t', q + [j])
  {
    SnocPath(t, q, j);
    var path := q + [j];
    assert path[..|path| - 1] == q && path[|path| - 1] == j;
    hide OnPath, At, Replace, Used;
  }

  lemma {:induction false} ReplaceStep<K, V>(t: Trie<K, V>, i: nat, q: seq<nat>, node: Trie<K, V>)
    requires i < |t.kids| && OnPath(t.kids[i].sub, q)
    ensures OnPath(t, [i] + q)
    ensures Replace(t, [i] + q, node) == t.(kids := t.kids[i := t.kids[i].(sub := Replace(t.kids[i].sub, q, node))])
    ensures Replace(t, [], node) == node
  {
    assert ([i] + q)[1..] == q;
  }

  lemma {:induction false} WithoutChanged<K, V>(t: Trie<K, V>, i: nat, kid: Kid<K, V>)
    requires i < |t.kids|
    ensures WithoutKid(t.(kids := t.kids[i := kid]), i) == WithoutKid(t, i)
  {
    var t' := t.(kids := t.kids[i := kid]);
    assert t'.kids[..i] == t.kids[..i] && t'.kids[i + 1..] == t.kids[i + 1..];
  }

  /** Pruning below child `i` and then finishing at `t` itself. */
  lemma {:induction false} PruneUpStep<K, V>(t: Trie<K, V>, i: nat, rest: seq<nat>)
    requires i < |t.kids| && OnPath(t.kids[i].sub, rest)
    ensures OnPath(t, [i] + rest)
    ensures
      var (sub, p) := PruneUp(t.kids[i].sub, rest);
      PruneUp(t, [i] + rest) ==
      if p != [] || Used(sub) then (t.(kids := t.kids[i := t.kids[i].(sub := sub)]), [i] + p)
      else if i == |t.kids| - 1 then (WithoutKid(t, i), [])
      else (WithoutKid(t, i), [i])
    decreases |rest|
  {
    hide *;
    FromStep(t, i, rest, []);
    RootIs(t, []);
    var kid := t.kids[i];
    if Used(At(kid.sub, rest)) {
      PruneUpDone(kid.sub, rest);
      RootIs(kid.sub, []);
      PruneUpDone(t, [i] + rest);
      assert t.kids[i := kid.(sub := kid.sub)] == t.kids;
    } else if rest == [] {
      PruneUpDone(kid.sub, []);
      assert [i] + [] == [i] && [] + [i] == [i];
      PruneUpSnoc(t, [], i);
      ReplaceStep(t, i, [], WithoutKid(t, i));
      RootIs(kid.sub, []);
      PruneUpDone(WithoutKid(t, i), []);
    } else {
      var q, j := rest[..|rest| - 1], rest[|rest| - 1];
      assert rest == q + [j] && [i] + rest == [i] + q + [j];
      PruneUpSnoc(kid.sub, q, j);
      PruneUpSnoc(t, [i] + q, j);
      FromStep(t, i, q, []);
      var node := WithoutKid(At(kid.sub, q), j);
      ReplaceStep(t, i, q, node);
      var sub' := Replace(kid.sub, q, node);
      var t' := Replace(t, [i] + q, node);
      if j == |At(kid.sub, q).kids| - 1 {
        PruneUpStep(t', i, q);
        var sub := PruneUp(sub', q).0;
        assert t'.kids[i := t'.kids[i].(sub := sub)] == t.kids[i := kid.(sub := sub)];
        WithoutChanged(t, i, kid.(sub := sub'));
      }
    }
  }

  /** The loop computes what `Pruned` says. */
  lemma {:induction false} PruneUpIs<K, V>(t: Trie<K, V>, path: seq<nat>)
    requires OnPath(t, path)
    ensures
      var (t', p) := PruneUp(Replace(t, path, At(t, path).(value := None)), path);
      t' == Pruned(t, path).0 && p == (if Pruned(t, path).1.Some? then Pruned(t, path).1.value else [])
    decreases |path|
  {
    if path == [] {
    } else {
      var i, rest := path[0], path[1..];
      assert path == [i] + rest;
      var kid := t.kids[i];
      PruneUpIs(kid.sub, rest);
      var cleared := Replace(t, path, At(t, path).(value := None));
      PruneUpStep(cleared, i, rest);
    }
  }

  // ----- the loop of insert, from the root down -----

  lemma {:induction false} CounterWidth()
    ensures TWO_64 == 0x1_0000_0000_0000_0000
  {
  }

  lemma {:induction false} ReplaceTwice<K, V>(t: Trie<K, V>, path: seq<nat>, a: Trie<K, V>, b: Trie<K, V>)
    requires OnPath(t, path)
    ensures Replace(Replace(t, path, a), path, b) == Replace(t, path, b)
    ensures Replace(t, path, At(t, path)) == t
    ensures KeyAt(Replace(t, path, a), path) == KeyAt(t, path)
    decreases |path|
  {
    if path == [] {
    } else {
      var kid := t.kids[path[0]];
      ReplaceTwice(kid.sub, path[1..], a, b);
      assert t.kids[path[0] := kid.(sub := kid.sub)] == t.kids;
      assert t.kids[path[0] := kid.(sub := Replace(kid.sub, path[1..], a))]
                   [path[0] := kid.(sub := Replace(kid.sub, path[1..], b))] ==
             t.kids[path[0] := kid.(sub := Replace(kid.sub, path[1..], b))];
    }
  }

  lemma {:induction false} ReplaceSnoc<K, V>(t: Trie<K, V>, path: seq<nat>, i: nat, node: Trie<K, V>)
    requires OnPath(t, path) && i < |At(t, path).kids|
    ensures OnPath(t, path + [i]) && At(t, path + [i]) == At(t, path).kids[i].sub
    ensures KeyAt(t, path + [i]) == KeyAt(t, path) + [At(t, path).kids[i].key]
    ensures
      var kids := At(t, path).kids;
      Replace(t, path + [i], node) == Replace(t, path, At(t, path).(kids := kids[i := kids[i].(sub := node)]))
    decreases |path|
  {
    if path == [] {
      assert [] + [i] == [i] && [i][1..] == [];
    } else {
      assert (path + [i])[1..] == path[1..] + [i];
      ReplaceSnoc(t.kids[path[0]].sub, path[1..], i, node);
    }
  }

  lemma {:induction false} RootReplaced<K, V>(t: Trie<K, V>, node: Trie<K, V>)
    ensures OnPath(t, []) && At(t, []) == t && KeyAt(t, []) == [] && Replace(t, [], node) == node
  {
  }

  /** The child for `c` after emplacing it. */
  function Emplaced<K(==), V>(t: Trie<K, V>, c: K): Trie<K, V>
  {
    if Find(t.kids, c) == |t.kids| then t.(kids := t.kids + [Kid(c, Empty())]) else t
  }

  lemma {:induction false} EmplacedIs<K, V>(t: Trie<K, V>, key: seq<K>, value: V)
    requires key != []
    ensures
      var i, u := Find(t.kids, key[0]), Emplaced(t, key[0]);
      && i < |u.kids| && u.kids[i].key == key[0]
      && Inserted(t, key, value) == u.(kids := u.kids[i := u.kids[i].(sub := Inserted(u.kids[i].sub, key[1..], value))])
      && Lookup(u.kids[i].sub, key[1..]) == Lookup(t, key)
      && (i < |t.kids| ==> u == t) && (i == |t.kids| ==> u == t.(kids := t.kids + [Kid(key[0], Empty())]))
  {
    var i := Find(t.kids, key[0]);
    if i == |t.kids| {
      EmptyLookup<K, V>(key[1..]);
      var sub := Inserted(Empty(), key[1..], value);
      assert (t.kids + [Kid(key[0], Empty())])[i := Kid(key[0], sub)] == t.kids + [Kid(key[0], sub)];
    }
  }

  /** One character further down. */
  lemma {:induction false} Descended<K, V>(t: Trie<K, V>, path: seq<nat>, key: seq<K>, k: nat, value: V)
    requires OnPath(t, path) && k < |key| && KeyAt(t, path) == key[..k]
    ensures
      var node := At(t, path);
      var i, t' := Find(node.kids, key[k]), Replace(t, path, Emplaced(node, key[k]));
      && i <= |node.kids| && (i < |node.kids| ==> t' == t)
      && (i == |node.kids| ==> t' == Replace(t, path, node.(kids := node.kids + [Kid(key[k], Empty())])))
      && OnPath(t', path + [i]) && KeyAt(t', path + [i]) == key[..k + 1]
      && Replace(t', path + [i], Inserted(At(t', path + [i]), key[k + 1..], value)) ==
         Replace(t, path, Inserted(node, key[k..], value))
      && Lookup(At(t', path + [i]), key[k + 1..]) == Lookup(node, key[k..])
  {
    hide *;
    var node := At(t, path);
    var rest := key[k..];
    assert rest[0] == key[k] && rest[1..] == key[k + 1..] && key[..k + 1] == key[..k] + [key[k]];
    EmplacedIs(node, rest, value);
    var i, u := Find(node.kids, key[k]), Emplaced(node, key[k]);
    var t' := Replace(t, path, u);
    var deeper := Inserted(u.kids[i].sub, key[k + 1..], value);
    ReplaceTwice(t, path, u, u.(kids := u.kids[i := u.kids[i].(sub := deeper)]));
    ReplaceSnoc(t', path, i, deeper);
  }

  lemma {:induction false} Arrived<K, V>(t: Trie<K, V>, path: seq<nat>, rest: seq<K>, value: V)
    requires OnPath(t, path) && rest == []
    ensures
      var node := At(t, path);
      && Lookup(node, rest) == node.value
      && Inserted(node, rest, value) == (if node.value.Some? then node else node.(value := Some(value)))
      && (node.value.Some? ==> Replace(t, path, node) == t)
      && KeyAt(Replace(t, path, node.(value := Some(value))), path) == KeyAt(t, path)
  {
    ReplaceTwice(t, path, At(t, path).(value := Some(value)), At(t, path));
    hide OnPath, At, KeyAt, Replace;
  }

  lemma {:induction false} ClimbSnoc<K, V>(t: Trie<K, V>, q: seq<nat>, i: nat)
    requires OnPath(t, q + [i])
    ensures OnPath(t, q) && i < |At(t, q).kids|
    ensures Climb(t, q + [i]) ==
      if i + 1 < |At(t, q).kids| then Some(q + [i + 1] + Descend(At(t, q).kids[i + 1].sub)) else Climb(t, q)
    decreases |q|
  {
    SnocPath(t, q, i);
    if q == [] {
      assert q + [i] == [i] && [i][1..] == [];
      assert [] + [i + 1] == [i + 1];
    } else {
      assert (q + [i])[1..] == q[1..] + [i];
      ClimbSnoc(t.kids[q[0]].sub, q[1..], i);
      var node := At(t, q);
      if i + 1 < |node.kids| {
        var down := Descend(node.kids[i + 1].sub);
        assert [q[0]] + (q[1..] + [i + 1] + down) == q + [i + 1] + down;
      }
    }
  }

  // ----- the map -----

  datatype Iterator<K, V> = Iterator(path: seq<nat>, current: Option<(seq<K>, V)>)

  class Map<K(==), V> {
    var root: Trie<K, V>
    var size: uint64

    /** The original leaves its counter uninitialised: `garbage` is what it starts from. */
    constructor (garbage: uint64)
      ensures root == Empty() && size == garbage
    {
      root, size := Empty(), garbage;
    }

    /** An iterator at a stored entry, or at the end. */
    ghost predicate Points(it: Iterator<K, V>)
      reads this
    {
      && OnPath(root, it.path)
      && (it.path != [] ==> At(root, it.path).value.Some?)
      && it.current == if it.path == [] then None else Some((KeyAt(root, it.path), At(root, it.path).value.value))
    }

    method SetCurrent(path: seq<nat>) returns (it: Iterator<K, V>)
      requires OnPath(root, path) && (path != [] ==> At(root, path).value.Some?)
      ensures it.path == path && Points(it)
    {
      it := Iterator(path, if path == [] then None else Some((KeyAt(root, path), At(root, path).value.value)));
    }

    /** Down the first children until there is a value. */
    method DescendUntilValid(start: seq<nat>) returns (path: seq<nat>)
      requires OnPath(root, start) && Live(At(root, start)) && Used(At(root, start))
      ensures path == start + Descend(At(root, start)) && OnPath(root, path) && At(root, path).value.Some?
    {
      path := start;
      assert start + [] == start;
      while At(root, path).value.None?
        invariant OnPath(root, path) && Live(At(root, path)) && Used(At(root, path))
        invariant path + Descend(At(root, path)) == start + Descend(At(root, start))
        decreases At(root, path)
      {
        ghost var node := At(root, path);
        SnocPath(root, path, 0);
        assert path + Descend(node) == path + [0] + Descend(node.kids[0].sub);
        path := path + [0];
      }
      assert path + [] == path;
    }

    method Begin() returns (it: Iterator<K, V>)
      requires Live(root)
      ensures it.path == Descend(root) && Points(it)
    {
      var path := [];
      if root.kids != [] {
        assert At(root, []) == root;
        path := DescendUntilValid([]);
        assert [] + Descend(root) == Descend(root);
      }
      it := SetCurrent(path);
    }

    /** operator++ */
    method Next(it: Iterator<K, V>) returns (next: Iterator<K, V>)
      requires Live(root) && Points(it) && it.path != []
      ensures next.path == (if Advance(root, it.path).Some? then Advance(root, it.path).value else []) && Points(next)
    {
      var path := it.path;
      LiveAt(root, path);
      if At(root, path).kids != [] {
        SnocPath(root, path, 0);
        path := DescendUntilValid(path + [0]);
      } else {
        path := ClimbOut(path);
      }
      next := SetCurrent(path);
    }

    method ClimbOut(start: seq<nat>) returns (path: seq<nat>)
      requires Live(root) && OnPath(root, start)
      ensures path == (if Climb(root, start).Some? then Climb(root, start).value else [])
      ensures OnPath(root, path) && (path != [] ==> At(root, path).value.Some?)
    {
      path := start;
      while path != []
        invariant OnPath(root, path) && Climb(root, path) == Climb(root, start)
        decreases |path|
      {
        var q, i := path[..|path| - 1], path[|path| - 1] + 1;
        assert path == q + [i - 1];
        ClimbSnoc(root, q, i - 1);
        if i == |At(root, q).kids| {
          path := q;
        } else {
          SnocPath(root, q, i);
          LiveAt(root, q);
          path := DescendUntilValid(q + [i]);
          return;
        }
      }
    }

    /** insert: walks down the key, emplacing an empty node wherever there is none, and stores under a free key. */
    method Insert(key: seq<K>, value: V) returns (it: Iterator<K, V>, inserted: bool)
      requires Live(root)
      modifies this
      ensures root == Inserted(old(root), key, value) && Live(root)
      ensures inserted <==> Lookup(old(root), key).None?
      ensures size == if inserted then (old(size) + 1) % TWO_64 else old(size)
      ensures Points(it) && |it.path| == |key| && (key != [] ==> it.current.value.0 == key)
    {
      hide *;
      CounterWidth();
      InsertedLive(root, key, value);
      RootReplaced(root, Inserted(root, key, value));
      var path: seq<nat> := [];
      for k := 0 to |key|
        invariant OnPath(root, path) && |path| == k && KeyAt(root, path) == key[..k] && size == old(size)
        invariant Replace(root, path, Inserted(At(root, path), key[k..], value)) == Inserted(old(root), key, value)
        invariant Lookup(At(root, path), key[k..]) == Lookup(old(root), key)
      {
        var node := At(root, path);
        var i := Find(node.kids, key[k]);
        Descended(root, path, key, k, value);
        if i == |node.kids| {
          root := Replace(root, path, node.(kids := node.kids + [Kid(key[k], Empty())]));
        }
        path := path + [i];
      }
      Arrived(root, path, key[|key|..], value);
      inserted := At(root, path).value.None?;
      if inserted {
        size := (size + 1) % TWO_64;
        root := Replace(root, path, At(root, path).(value := Some(value)));
      }
      it := SetCurrent(path);
      PointsIs(it);
    }

    lemma {:induction false} PointsIs(it: Iterator<K, V>)
      requires Points(it)
      ensures OnPath(root, it.path) && (it.path != [] ==> it.current.Some? && it.current.value.0 == KeyAt(root, it.path))
    {
      hide OnPath, At, KeyAt;
    }

    /** The pruning loop of erase. */
    method Prune(start: seq<nat>) returns (path: seq<nat>)
      requires OnPath(root, start)
      modifies this`root
      ensures (root, path) == PruneUp(old(root), start)
    {
      path := start;
      while path != [] && !Used(At(root, path))
        invariant OnPath(root, path) && PruneUp(root, path) == PruneUp(old(root), start)
        decreases |path|
      {
        var q, i := path[..|path| - 1], path[|path| - 1];
        assert path == q + [i];
        SnocPath(root, q, i);
        root := Replace(root, q, WithoutKid(At(root, q), i));
        if i == |At(root, q).kids| {
          path := q;
        } else {
          SnocPath(root, q, i);
          return;
        }
      }
    }

    /** erase */
    method Erase(pos: Iterator<K, V>) returns (it: Iterator<K, V>)
      requires Live(root) && Points(pos) && pos.path != []
      modifies this
      ensures root == Pruned(old(root), pos.path).0 && Live(root)
      ensures it.path == AfterErase(old(root), pos.path) && Points(it)
      ensures size == (old(size) - 1) % TWO_64
    {
      hide *;
      CounterWidth();
      PointsIs(pos);
      AfterErasePath(root, pos.path);
      PruneUpIs(root, pos.path);
      PrunedLive(root, pos.path);
      ghost var before := root;
      root := Replace(root, pos.path, At(root, pos.path).(value := None));
      var path := Prune(pos.path);
      size := (size - 1) % TWO_64;
      if path != [] {
        UsedAt(root, path);
        LiveAt(root, path);
        path := DescendUntilValid(path);
      }
      it := SetCurrent(path);
    }
  }

  lemma {:induction false} LiveAt<K, V>(t: Trie<K, V>, path: seq<nat>)
    requires Live(t) && OnPath(t, path)
    ensures Live(At(t, path))
    decreases |path|
  {
    if path == [] {
    } else {
      LiveAt(t.kids[path[0]].sub, path[1..]);
    }
  }

  lemma {:induction false} UsedAt<K, V>(t: Trie<K, V>, path: seq<nat>)
    requires Live(t) && OnPath(t, path) && path != []
    ensures Used(At(t, path))
    decreases |path|
  {
    if |path| > 1 {
      UsedAt(t.kids[path[0]].sub, path[1..]);
    }
  }

  // ----- whole runs -----

  /** The entries an iterator still has in front of it. */
  function Ahead<K, V>(t: Trie<K, V>, path: seq<nat>): seq<(seq<K>, V)>
    requires OnPath(t, path)
  {
    if path == [] then [] else From(t, path, [])
  }

  /** Iteration from `begin` meets every entry exactly when no value is stored under the empty key. */
  lemma {:induction false} BeginCoversIff<K, V>(t: Trie<K, V>)
    requires Live(t)
    ensures OnPath(t, Descend(t)) && (Ahead(t, Descend(t)) == Entries(t, []) <==> t.value.None?)
  {
    DescendFrom(t, []);
  }

  lemma {:induction false} AdvanceAhead<K, V>(t: Trie<K, V>, path: seq<nat>)
    requires OnPath(t, path) && path != [] && At(t, path).value.Some?
    ensures
      var next := if Advance(t, path).Some? then Advance(t, path).value else [];
      OnPath(t, next) && Ahead(t, path) == [(KeyAt(t, path), At(t, path).value.value)] + Ahead(t, next)
  {
    AdvanceFrom(t, path, []);
    assert [] + KeyAt(t, path) == KeyAt(t, path);
    AdvanceNonEmpty(t, path);
    hide From, KeyAt, Advance, OnPath, At;
  }

  lemma {:induction false} AdvanceNonEmpty<K, V>(t: Trie<K, V>, path: seq<nat>)
    requires OnPath(t, path)
    ensures Advance(t, path).Some? ==> Advance(t, path).value != []
  {
  }

  /** A pass of `for (it = begin(); it != end(); ++it)` meets each stored key once, in preorder. */
  method Collect<K(==), V>(m: Map<K, V>) returns (out: seq<(seq<K>, V)>)
    requires Live(m.root) && m.root.value.None?
    ensures out == Entries(m.root, []) && DistinctFirst(out)
    ensures forall k, v :: (k, v) in out <==> Lookup(m.root, k) == Some(v)
  {
    hide Entries, From, Descend, Climb, Advance, Live, DistinctFirst;
    var it := m.Begin();
    BeginCoversIff(m.root);
    out := [];
    while it.path != []
      invariant m.Points(it) && out + Ahead(m.root, it.path) == Entries(m.root, [])
      decreases |Ahead(m.root, it.path)|
    {
      AdvanceAhead(m.root, it.path);
      out := out + [it.current.value];
      it := m.Next(it);
    }
    EntriesDistinct(m.root, []);
    forall k, v ensures (k, v) in Entries(m.root, []) <==> Lookup(m.root, k) == Some(v) {
      EntryIff(m.root, [], k, v);
      assert [] + k == k;
    }
  }

  /** erase removes exactly one key. */
  lemma {:induction false} PrunedLookup<K, V>(t: Trie<K, V>, path: seq<nat>, key: seq<K>)
    requires Live(t) && OnPath(t, path) && At(t, path).value.Some?
    ensures Lookup(Pruned(t, path).0, key) == if key == KeyAt(t, path) then None else Lookup(t, key)
    decreases |path|
  {
    if path == [] {
    } else {
      var i, rest := path[0], path[1..];
      var kid := t.kids[i];
      assert Live(kid.sub);
      FindIs(t.kids, i);
      if key != [] {
        PrunedLookup(kid.sub, rest, key[1..]);
        var (sub, pos) := Pruned(kid.sub, rest);
        assert key == [key[0]] + key[1..];
        if pos.Some? {
          FindAfterSet(t.kids, kid.(sub := sub), key[0]);
        } else {
          FindWithout(t.kids, i, key[0]);
          if key[0] == kid.key {
            UnusedLookup(sub, key[1..]);
          }
        }
      }
    }
  }

  lemma {:induction false} UnusedLookup<K, V>(t: Trie<K, V>, key: seq<K>)
    requires !Used(t)
    ensures Lookup(t, key) == None
  {
  }

  lemma {:induction false} FindIs<K, V>(kids: seq<Kid<K, V>>, i: nat)
    requires DistinctKeys(kids) && i < |kids|
    ensures Find(kids, kids[i].key) == i
  {
  }

  lemma {:induction false} FindWithout<K, V>(kids: seq<Kid<K, V>>, i: nat, key: K)
    requires DistinctKeys(kids) && i < |kids|
    ensures
      var kids' := kids[..i] + kids[i + 1..];
      var j, j' := Find(kids, key), Find(kids', key);
      if key == kids[i].key then j' == |kids'|
      else (j == |kids| && j' == |kids'|) || (j < |kids| && j' < |kids'| && kids'[j'] == kids[j])
  {
    var kids' := kids[..i] + kids[i + 1..];
    var j, j' := Find(kids, key), Find(kids', key);
    if j' < |kids'| {
      assert kids'[j'] == kids[if j' < i then j' else j' + 1];
    }
    if j < |kids| && j != i {
      assert kids'[if j < i then j else j - 1] == kids[j];
    }
  }

  /** `it = begin(); while (it != end()) it = erase(it);` ends with an empty trie. */
  method Drain<K(==), V>(m: Map<K, V>)
    requires Live(m.root) && m.root.value.None?
    modifies m
    ensures !Used(m.root) && m.size == (old(m.size) - |old(Entries(m.root, []))|) % TWO_64
  {
    hide Entries, From, Climb, Advance, Live;
    var it := m.Begin();
    ghost var total := |Entries(m.root, [])|;
    ghost var start: int := m.size;
    while it.path != []
      invariant Live(m.root) && m.root.value.None? && m.Points(it) && it.path == Descend(m.root)
      invariant |Entries(m.root, [])| <= total
      invariant m.size == (start - (total - |Entries(m.root, [])|)) % TWO_64
      decreases |Entries(m.root, [])|
    {
      var before, after := PrunedEntries(m.root, it.path, []);
      EraseFirst(m.root);
      RootKeepsNone(m.root, it.path);
      DescendOnPath(Pruned(m.root, it.path).0);
      ghost var count := |Entries(m.root, [])|;
      StepDown(start - (total - count));
      it := m.Erase(it);
    }
    DrainedRoot(m.root);
  }

  lemma {:induction false} StepDown(x: int)
    ensures (x % TWO_64 - 1) % TWO_64 == (x - 1) % TWO_64
  {
    ModShift(x % TWO_64 - 1, x / TWO_64, TWO_64);
    assert x == x / TWO_64 * TWO_64 + x % TWO_64;
  }

  lemma {:induction false} RootKeepsNone<K, V>(t: Trie<K, V>, path: seq<nat>)
    requires OnPath(t, path) && path != [] && t.value.None?
    ensures Pruned(t, path).0.value.None?
    ensures path == Descend(t) && OnPath(t, Descend(t)) ==> AfterErase(t, path) == Descend(Pruned(t, path).0)
  {
    if path == Descend(t) {
      EraseFirst(t);
      var (t', pos) := Pruned(t, path);
      if pos.None? {
        assert Descend(t') == [];
      }
    }
  }

  lemma {:induction false} DrainedRoot<K, V>(t: Trie<K, V>)
    requires t.value.None? && Descend(t) == []
    ensures !Used(t) && Entries(t, []) == []
  {
  }

  /** The counter moves with the number of entries: an insertion that succeeds adds one. */
  lemma {:induction false} InsertedCount<K, V>(t: Trie<K, V>, key: seq<K>, value: V, prefix: seq<K>)
    ensures |Entries(Inserted(t, key, value), prefix)| == |Entries(t, prefix)| + if Lookup(t, key).None? then 1 else 0
    decreases |key|
  {
    if key == [] {
      KidEntriesSame(t, 0, t.(value := Some(value)), 0, prefix);
    } else {
      var i := Find(t.kids, key[0]);
      var longer := prefix + [key[0]];
      var below := if i == |t.kids| then Empty() else t.kids[i].sub;
      InsertedCount(below, key[1..], value, longer);
      if i < |t.kids| {
        EntriesReplaced(t, i, Inserted(below, key[1..], value), prefix);
        EntriesAround(t, i, prefix);
        assert t.kids[i].(sub := Inserted(below, key[1..], value)) == Kid(key[0], Inserted(below, key[1..], value));
      } else {
        EmptyLookup<K, V>(key[1..]);
        var u := Inserted(t, key, value);
        KidEntriesSplit(u, i, prefix);
        KidEntriesSplit(t, i, prefix);
        BeforeSame(t, u, i, prefix);
        assert Entries<K, V>(Empty(), longer) == [];
        assert KidEntries(u, i, prefix) == Entries(u.kids[i].sub, longer) + KidEntries(u, i + 1, prefix);
      }
    }
  }

  // ----- where erase leaves the iterator -----

  /** Erasing the value at `path` removes the whole of `t`. */
  predicate Vanishes<K, V>(t: Trie<K, V>, path: seq<nat>)
    requires OnPath(t, path)
    decreases |path|
  {
    if path == [] then t.kids == []
    else Vanishes(t.kids[path[0]].sub, path[1..]) && t.value.None? && |t.kids| == 1
  }

  /**
   The erased node keeps children, or the branch that is cut off has a later sibling where it is cut off: at the
   nearest node above with a value or a second child.
   */
  predicate StepsOn<K, V>(t: Trie<K, V>, path: seq<nat>)
    requires OnPath(t, path)
    decreases |path|
  {
    if path == [] then t.kids != []
    else
      var sub, rest := t.kids[path[0]].sub, path[1..];
      if Vanishes(sub, rest) then path[0] + 1 < |t.kids| else StepsOn(sub, rest)
  }

  lemma {:induction false} VanishesIff<K, V>(t: Trie<K, V>, path: seq<nat>)
    requires OnPath(t, path)
    ensures Pruned(t, path).1.None? <==> Vanishes(t, path)
    decreases |path|
  {
    if path == [] {
    } else {
      VanishesIff(t.kids[path[0]].sub, path[1..]);
      PrunedStep(t, path);
    }
  }

  lemma {:induction false} VanishesIs<K, V>(t: Trie<K, V>, path: seq<nat>)
    requires OnPath(t, path)
    ensures path == [] ==> (Vanishes(t, path) <==> t.kids == []) && (StepsOn(t, path) <==> t.kids != [])
    ensures path != [] ==>
      var sub, rest := t.kids[path[0]].sub, path[1..];
      && (Vanishes(t, path) <==> Vanishes(sub, rest) && t.value.None? && |t.kids| == 1)
      && (StepsOn(t, path) <==> if Vanishes(sub, rest) then path[0] + 1 < |t.kids| else StepsOn(sub, rest))
  {
  }

  /** What vanishes held one entry. */
  lemma {:induction false} VanishesAlone<K, V>(t: Trie<K, V>, path: seq<nat>, prefix: seq<K>)
    requires OnPath(t, path) && At(t, path).value.Some? && Vanishes(t, path)
    ensures |From(t, path, prefix)| == 1
    decreases |path|
  {
    hide *;
    VanishesIs(t, path);
    if path == [] {
      RootIs(t, prefix);
      EntriesHead(t, prefix);
    } else {
      SubPath(t, path);
      var i, rest := path[0], path[1..];
      FromStep(t, i, rest, prefix);
      VanishesAlone(t.kids[i].sub, rest, prefix + [t.kids[i].key]);
      NoKidEntries(t, prefix);
    }
  }

  lemma {:induction false} UsedHasEntries<K, V>(t: Trie<K, V>, prefix: seq<K>)
    requires Live(t) && Used(t)
    ensures Entries(t, prefix) != []
  {
    hide *;
    DescendOnPath(t);
    DescendFrom(t, prefix);
    AdvanceFrom(t, Descend(t), prefix);
  }

  /** The entries from the returned position on, in a subtree of which something is left. */
  function Resumed<K, V>(t: Trie<K, V>, path: seq<nat>, prefix: seq<K>): seq<(seq<K>, V)>
    requires OnPath(t, path) && Pruned(t, path).1.Some?
  {
    var (t', pos) := Pruned(t, path);
    ResumedOnPath(t', pos.value);
    From(t', pos.value + Descend(At(t', pos.value)), prefix)
  }

  lemma {:induction false} ResumedOnPath<K, V>(t: Trie<K, V>, pos: seq<nat>)
    requires OnPath(t, pos)
    ensures OnPath(t, pos + Descend(At(t, pos)))
    decreases |pos|
  {
    if pos == [] {
      DescendOnPath(t);
      assert [] + Descend(t) == Descend(t);
    } else {
      ResumedOnPath(t.kids[pos[0]].sub, pos[1..]);
      assert (pos + Descend(At(t, pos)))[1..] == pos[1..] + Descend(At(t, pos));
    }
  }

  lemma {:induction false} ResumedRoot<K, V>(t: Trie<K, V>, path: seq<nat>, prefix: seq<K>)
    requires OnPath(t, path) && Pruned(t, path).1 == Some([])
    ensures Resumed(t, path, prefix) == Entries(Pruned(t, path).0, prefix)
  {
    var t' := Pruned(t, path).0;
    hide Pruned, From, Entries, Descend;
    DescendFrom(t', prefix);
    assert [] + Descend(t') == Descend(t');
  }

  lemma {:induction false} ResumedSibling<K, V>(t: Trie<K, V>, i: nat, rest: seq<nat>, prefix: seq<K>)
    requires i + 1 < |t.kids| && OnPath(t.kids[i].sub, rest) && Vanishes(t.kids[i].sub, rest)
    ensures OnPath(t, [i] + rest) && Pruned(t, [i] + rest).1 == Some([i])
    ensures Resumed(t, [i] + rest, prefix) == KidEntries(t, i + 1, prefix)
  {
    FromStep(t, i, rest, prefix);
    VanishesIff(t.kids[i].sub, rest);
    var path := [i] + rest;
    assert path[1..] == rest;
    PrunedStep(t, path);
    var t' := Pruned(t, path).0;
    assert Pruned(t, path).1 == Some([i]);
    hide Pruned, From, KidEntries, Descend, Vanishes;
    EnterFrom(t', i, prefix);
    assert At(t', [i]) == t'.kids[i].sub by { assert [i][1..] == []; }
    KidEntriesSame(t', i, t, i + 1, prefix);
  }

  lemma {:induction false} PrunedBelowIs<K, V>(t: Trie<K, V>, i: nat, rest: seq<nat>)
    requires i < |t.kids| && OnPath(t.kids[i].sub, rest) && Pruned(t.kids[i].sub, rest).1.Some?
    ensures OnPath(t, [i] + rest)
    ensures
      var (sub, p) := Pruned(t.kids[i].sub, rest);
      && OnPath(sub, p.value)
      && Pruned(t, [i] + rest) == (t.(kids := t.kids[i := t.kids[i].(sub := sub)]), Some([i] + p.value))
  {
    assert ([i] + rest)[1..] == rest;
    PrunedStep(t, [i] + rest);
  }

  lemma {:induction false} ResumedIs<K, V>(t: Trie<K, V>, path: seq<nat>, prefix: seq<K>)
    requires OnPath(t, path) && Pruned(t, path).1.Some?
    ensures
      var (t', pos) := Pruned(t, path);
      && OnPath(t', pos.value) && OnPath(t', pos.value + Descend(At(t', pos.value)))
      && Resumed(t, path, prefix) == From(t', pos.value + Descend(At(t', pos.value)), prefix)
  {
    hide Pruned, From, Descend;
    ResumedOnPath(Pruned(t, path).0, Pruned(t, path).1.value);
  }

  lemma {:induction false} ResumedBelow<K, V>(t: Trie<K, V>, i: nat, rest: seq<nat>, prefix: seq<K>)
    requires i < |t.kids| && OnPath(t.kids[i].sub, rest) && Pruned(t.kids[i].sub, rest).1.Some?
    ensures OnPath(t, [i] + rest) && Pruned(t, [i] + rest).1 == Some([i] + Pruned(t.kids[i].sub, rest).1.value)
    ensures Resumed(t, [i] + rest, prefix) ==
            Resumed(t.kids[i].sub, rest, prefix + [t.kids[i].key]) + KidEntries(t, i + 1, prefix)
  {
    hide *;
    FromStep(t, i, rest, prefix);
    PrunedBelowIs(t, i, rest);
    var (sub, p) := Pruned(t.kids[i].sub, rest);
    var t' := t.(kids := t.kids[i := t.kids[i].(sub := sub)]);
    FromStep(t', i, p.value, prefix);
    ResumedOnPath(sub, p.value);
    var down := Descend(At(sub, p.value));
    FromStep(t', i, p.value + down, prefix);
    assert [i] + p.value + down == [i] + (p.value + down);
    KidEntriesSame(t', i + 1, t, i + 1, prefix);
    ResumedIs(t, [i] + rest, prefix);
    ResumedIs(t.kids[i].sub, rest, prefix + [t.kids[i].key]);
  }

  lemma {:induction false} LastVanished<K, V>(t: Trie<K, V>, i: nat, rest: seq<nat>, prefix: seq<K>)
    requires i + 1 == |t.kids| && OnPath(t.kids[i].sub, rest) && Vanishes(t.kids[i].sub, rest)
    ensures OnPath(t, [i] + rest)
    ensures Pruned(t, [i] + rest).1 == if t.value.Some? || |t.kids| > 1 then Some([]) else None
    ensures Pruned(t, [i] + rest).1.Some? ==> Used(Pruned(t, [i] + rest).0)
  {
    FromStep(t, i, rest, prefix);
    VanishesIff(t.kids[i].sub, rest);
    assert ([i] + rest)[1..] == rest;
    PrunedStep(t, [i] + rest);
  }

  lemma {:induction false} CancelTail<T>(a: seq<T>, b: seq<T>, c: seq<T>)
    ensures a + c == b + c <==> a == b
  {
    if a + c == b + c {
      assert |a| == |b|;
      assert a == (a + c)[..|a|] == (b + c)[..|b|] == b;
    }
  }

  lemma {:induction false} TailOfSum<T>(a: seq<T>, c: seq<T>)
    requires a != []
    ensures (a + c)[1..] == a[1..] + c
  {
  }

  /** In a subtree of which something is left, the position resumes behind the erased entry exactly as `StepsOn` says. */
  lemma {:induction false} ResumedIff<K, V>(t: Trie<K, V>, path: seq<nat>, prefix: seq<K>)
    requires Live(t) && OnPath(t, path) && At(t, path).value.Some? && !Vanishes(t, path)
    ensures Pruned(t, path).1.Some? && From(t, path, prefix) != []
    ensures Resumed(t, path, prefix) == From(t, path, prefix)[1..] <==> StepsOn(t, path)
    decreases |path|
  {
    hide *;
    VanishesIff(t, path);
    VanishesIs(t, path);
    if path == [] {
      RootIs(t, prefix);
      ErasedHere(t, prefix);
    } else {
      SubPath(t, path);
      var i, rest := path[0], path[1..];
      var sub, longer := t.kids[i].sub, prefix + [t.kids[i].key];
      FromStep(t, i, rest, prefix);
      LiveBelow(t, i);
      if !Vanishes(sub, rest) {
        ResumedIff(sub, rest, longer);
        ResumedBelow(t, i, rest, prefix);
        TailOfSum(From(sub, rest, longer), KidEntries(t, i + 1, prefix));
        CancelTail(Resumed(sub, rest, longer), From(sub, rest, longer)[1..], KidEntries(t, i + 1, prefix));
      } else {
        VanishesAlone(sub, rest, longer);
        TailOfSum(From(sub, rest, longer), KidEntries(t, i + 1, prefix));
        if i + 1 < |t.kids| {
          ResumedSibling(t, i, rest, prefix);
        } else {
          LastVanished(t, i, rest, prefix);
          ResumedRoot(t, path, prefix);
          PrunedLive(t, path);
          UsedHasEntries(Pruned(t, path).0, prefix);
          NoKidEntries(t, prefix);
        }
      }
    }
  }

  lemma {:induction false} LiveBelow<K, V>(t: Trie<K, V>, i: nat)
    requires Live(t) && i < |t.kids|
    ensures Live(t.kids[i].sub)
  {
  }

  /** Erasing a value above its children. */
  lemma {:induction false} ErasedHere<K, V>(t: Trie<K, V>, prefix: seq<K>)
    requires OnPath(t, []) && t.value.Some? && t.kids != []
    ensures At(t, []) == t && Pruned(t, []).1.Some? && From(t, [], prefix) != []
    ensures Resumed(t, [], prefix) == From(t, [], prefix)[1..]
  {
    RootIs(t, prefix);
    EntriesHead(t, prefix);
    var t' := t.(value := None);
    assert Pruned(t, []) == (t', Some([]));
    assert Entries(t', prefix) == [] + KidEntries(t', 0, prefix);
    KidEntriesSame(t', 0, t, 0, prefix);
    hide Pruned, From, Entries, KidEntries;
    ResumedRoot(t, [], prefix);
  }

  /**
   erase returns the entry after the one erased exactly when the erased node keeps children, or nothing is left of
   its branch below the root, or the branch is cut off in front of a later sibling.
   */
  lemma {:induction false} EraseStepsOnIff<K, V>(t: Trie<K, V>, path: seq<nat>)
    requires Live(t) && OnPath(t, path) && path != [] && At(t, path).value.Some?
    ensures OnPath(Pruned(t, path).0, AfterErase(t, path)) && Ahead(t, path) != []
    ensures
      var sub, rest := t.kids[path[0]].sub, path[1..];
      Ahead(Pruned(t, path).0, AfterErase(t, path)) == Ahead(t, path)[1..] <==> Vanishes(sub, rest) || StepsOn(sub, rest)
  {
    hide *;
    SubPath(t, path);
    AfterEraseIs(t, path);
    AheadIs(t, path);
    var i, rest := path[0], path[1..];
    var sub, longer := t.kids[i].sub, [] + [t.kids[i].key];
    FromStep(t, i, rest, []);
    LiveBelow(t, i);
    if !Vanishes(sub, rest) {
      ResumedIff(sub, rest, longer);
      ResumedBelow(t, i, rest, []);
      TailOfSum(From(sub, rest, longer), KidEntries(t, i + 1, []));
      CancelTail(Resumed(sub, rest, longer), From(sub, rest, longer)[1..], KidEntries(t, i + 1, []));
    } else {
      VanishesAlone(sub, rest, longer);
      TailOfSum(From(sub, rest, longer), KidEntries(t, i + 1, []));
      if i + 1 < |t.kids| {
        ResumedSibling(t, i, rest, []);
      } else {
        LastVanished(t, i, rest, []);
        NoKidEntries<K, V>(t, []);
      }
    }
  }

  lemma {:induction false} AfterErasePath<K, V>(t: Trie<K, V>, path: seq<nat>)
    requires OnPath(t, path)
    ensures
      var (t', pos) := Pruned(t, path);
      var p := if pos.Some? then pos.value else [];
      && (p == [] ==> AfterErase(t, path) == [])
      && (p != [] ==> OnPath(t', p) && AfterErase(t, path) == p + Descend(At(t', p)))
  {
    hide Pruned, Descend, At;
  }

  lemma {:induction false} AfterEraseIs<K, V>(t: Trie<K, V>, path: seq<nat>)
    requires OnPath(t, path)
    ensures
      var (t', pos) := Pruned(t, path);
      && OnPath(t', AfterErase(t, path))
      && (pos.None? || pos.value == [] ==> Ahead(t', AfterErase(t, path)) == [])
      && (pos.Some? && pos.value != [] ==> Ahead(t', AfterErase(t, path)) == Resumed(t, path, []))
  {
    var (t', pos) := Pruned(t, path);
    hide Pruned, From;
    if pos.Some? && pos.value != [] {
      ResumedOnPath(t', pos.value);
    }
  }

  lemma {:induction false} AheadIs<K, V>(t: Trie<K, V>, path: seq<nat>)
    requires OnPath(t, path) && path != []
    ensures Ahead(t, path) == From(t, path, [])
  {
  }

  /**
   erase need not return the entry after the one erased: with "a" and "ab" stored, erasing "ab", the last entry,
   returns "a" again instead of the end.
   */
  lemma {:induction false} EraseMayStepBack()
    ensures
      var t := Trie(None, [Kid('a', Trie(Some(1), [Kid('b', Trie(Some(2), []))]))]);
      && OnPath(t, [0, 0]) && KeyAt(t, [0, 0]) == "ab" && Advance(t, [0, 0]) == None
      && AfterErase(t, [0, 0]) == [0] && KeyAt(t, [0]) == "a"
  {
    var t := Trie(None, [Kid('a', Trie(Some(1), [Kid('b', Trie(Some(2), []))]))]);
    var a := t.kids[0].sub;
    assert [0, 0][1..] == [0] && [0][1..] == [];
    assert At(t, [0, 0]) == a.kids[0].sub;
    assert Climb(a, [0]) == None && Climb(t, [0, 0]) == None;
    assert Pruned(a, [0]) == (Trie(Some(1), []), Some([]));
    assert [0] + [] == [0];
  }

  // ----- transform -----

  function Mapped<K, V, W>(t: Trie<K, V>, f: V -> W): Trie<K, W>
    decreases t
  {
    Trie(if t.value.None? then None else Some(f(t.value.value)),
         seq(|t.kids|, i requires 0 <= i < |t.kids| => Kid(t.kids[i].key, Mapped(t.kids[i].sub, f))))
  }

  /** transform keeps every key and maps its value. */
  lemma {:induction false} MappedLookup<K, V, W>(t: Trie<K, V>, f: V -> W, key: seq<K>)
    ensures Lookup(Mapped(t, f), key) == if Lookup(t, key).None? then None else Some(f(Lookup(t, key).value))
    decreases |key|
  {
    if key == [] {
    } else {
      var kids, kids' := t.kids, Mapped(t, f).kids;
      var i, j := Find(kids, key[0]), Find(kids', key[0]);
      assert j < |kids'| ==> kids'[j].key == kids[j].key;
      assert i < |kids| ==> kids'[i].key == kids[i].key;
      if i < |kids| {
        MappedLookup(kids[i].sub, f, key[1..]);
      }
    }
  }
}
