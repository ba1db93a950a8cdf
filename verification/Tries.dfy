/** The node type of include/core/trie.hh: an optional value and children by character, in their iteration order. */
module Tries {
  import opened Wrappers

  datatype Kid<K, V> = Kid(key: K, sub: Trie<K, V>)

  datatype Trie<K, V> = Trie(value: Option<V>, kids: seq<Kid<K, V>>)

  function Find<K(==), V>(kids: seq<Kid<K, V>>, key: K): (i: nat)
    ensures i <= |kids| && (i < |kids| ==> kids[i].key == key)
    ensures forall j :: 0 <= j < i ==> kids[j].key != key
  {
    if kids == [] || kids[0].key == key then 0 else 1 + Find(kids[1..], key)
  }

  function Lookup<K(==), V>(t: Trie<K, V>, key: seq<K>): Option<V>
    decreases |key|
  {
    if key == [] then t.value
    else
      var i := Find(t.kids, key[0]);
      if i == |t.kids| then None else Lookup(t.kids[i].sub, key[1..])
  }

  function Empty<K, V>(): Trie<K, V>
  {
    Trie(None, [])
  }

  /** Walks `path`, creating missing children, and overwrites the node it arrives at. */
  function SetAt<K(==), V>(t: Trie<K, V>, path: seq<K>, sub: Trie<K, V>): Trie<K, V>
    decreases |path|
  {
    if path == [] then sub
    else
      var i := Find(t.kids, path[0]);
      if i == |t.kids| then t.(kids := t.kids + [Kid(path[0], SetAt(Empty(), path[1..], sub))])
      else t.(kids := t.kids[i := Kid(path[0], SetAt(t.kids[i].sub, path[1..], sub))])
  }

  /** The keys that extend `path` now lead into `sub`; every other key keeps its value. */
  lemma {:induction false} SetAtLookup<K, V>(t: Trie<K, V>, path: seq<K>, sub: Trie<K, V>, key: seq<K>)
    ensures Lookup(SetAt(t, path, sub), key) ==
            if path <= key then Lookup(sub, key[|path|..]) else Lookup(t, key)
    decreases |path|
  {
    if path == [] {
      assert key[0..] == key;
    } else {
      var i := Find(t.kids, path[0]);
      var below := if i == |t.kids| then Empty() else t.kids[i].sub;
      var kids' := SetAt(t, path, sub).kids;
      if key != [] {
        FindAfterSet(t.kids, Kid(path[0], SetAt(below, path[1..], sub)), key[0]);
        if key[0] == path[0] {
          SetAtLookup(below, path[1..], sub, key[1..]);
          assert path <= key <==> path[1..] <= key[1..] by {
            assert path == [path[0]] + path[1..] && key == [key[0]] + key[1..];
          }
          if path <= key {
            assert key[1..][|path[1..]|..] == key[|path|..];
          } else if i == |t.kids| {
            assert Lookup<K, V>(Empty(), key[1..]) == None;
          }
        }
      }
    }
  }

  /** Replacing the child for one character, or adding it, changes the search for that character only. */
  lemma {:induction false} FindAfterSet<K, V>(kids: seq<Kid<K, V>>, kid: Kid<K, V>, key: K)
    ensures
      var i := Find(kids, kid.key);
      var kids' := if i == |kids| then kids + [kid] else kids[i := kid];
      && (key == kid.key ==> Find(kids', key) == i)
      && (key != kid.key ==>
            (Find(kids', key) == |kids'| <==> Find(kids, key) == |kids|)
            && (Find(kids, key) < |kids| ==> Find(kids', key) == Find(kids, key)))
  {
    var i := Find(kids, kid.key);
    var kids' := if i == |kids| then kids + [kid] else kids[i := kid];
    var j, k := Find(kids, key), Find(kids', key);
    assert key != kid.key && j < |kids| ==> kids'[j].key == key;
    if key == kid.key {
      assert kids'[i].key == key;
    } else if k < |kids'| {
      assert k != i;
      assert kids'[k] == kids[k];
    }
  }

  predicate DistinctKeys<K(==), V>(kids: seq<Kid<K, V>>)
  {
    forall i, j :: 0 <= i < j < |kids| ==> kids[i].key != kids[j].key
  }
}
