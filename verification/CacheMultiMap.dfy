/** The multimap that keeps the most recently added items: a list, newest first, and an index of
    the list's nodes by key and value. A node is known by a number that is never used again. */
module CacheMultiMap {
  import opened Nodes
  import opened Sets

  /** The pairs with another key. */
  function OtherKeys<K(==), V>(ps: seq<(K, V)>, k: K): seq<(K, V)> {
    if ps == [] then [] else OtherKeys(ps[..|ps| - 1], k) + if ps[|ps| - 1].0 == k then [] else [ps[|ps| - 1]]
  }

  lemma {:induction false} OtherKeysAre<K, V>(ps: seq<(K, V)>, k: K)
    ensures SomeOf(OtherKeys(ps, k), ps) && forall x :: x in OtherKeys(ps, k) <==> x in ps && x.0 != k
  {
    if ps != [] {
      var n := |ps| - 1;
      OtherKeysAre(ps[..n], k);
      KeepOrDrop(OtherKeys(ps[..n], k), ps[..n], ps[n], ps[n].0 != k, OtherKeys(ps, k), ps);
    }
  }

  type Index<K(==), V(==)> = map<K, map<V, nat>>

  /** Two nodes have numbers of their own. */
  predicate Differ<K, V>(l: seq<Item<K, V>>, i: nat, j: nat)
    requires i < |l| && j < |l|
  {
    i != j ==> l[i].id != l[j].id
  }

  ghost predicate IdsDistinct<K, V>(l: seq<Item<K, V>>, nextId: nat) {
    && (forall i :: 0 <= i < |l| ==> l[i].id < nextId)
    && forall i: nat, j: nat {:trigger Differ(l, i, j)} :: i < |l| && j < |l| ==> Differ(l, i, j)
  }

  lemma RemoveDistinct<K, V>(l: seq<Item<K, V>>, nextId: nat, p: nat)
    requires IdsDistinct(l, nextId) && p < |l|
    ensures IdsDistinct(RemoveAt(l, p), nextId)
  {
    var r := RemoveAt(l, p);
    forall i: nat, j: nat | i < |r| && j < |r|
      ensures Differ(r, i, j)
    {
      assert Differ(l, if i < p then i else i + 1, if j < p then j else j + 1);
    }
  }

  /** Every node is indexed, and nothing but the list's nodes is; no key has an empty inner map. */
  ghost predicate Indexed<K(!new), V(!new)>(l: seq<Item<K, V>>, m: Index<K, V>) {
    Covers(l, m) && NoneEmpty(m) && Backed(l, m)
  }

  ghost predicate Covers<K(!new), V(!new)>(l: seq<Item<K, V>>, m: Index<K, V>) {
    forall i :: 0 <= i < |l| ==> l[i].key in m && l[i].value in m[l[i].key] && m[l[i].key][l[i].value] == l[i].id
  }

  ghost predicate NoneEmpty<K(!new), V(!new)>(m: Index<K, V>) { forall k :: k in m ==> m[k] != map[] }

  ghost predicate Backed<K(!new), V(!new)>(l: seq<Item<K, V>>, m: Index<K, V>) {
    forall k, v :: k in m && v in m[k] ==> Item(m[k][v], k, v) in l
  }

  /** The node that the index gives for a pair. */
  lemma NodeOf<K(!new), V(!new)>(l: seq<Item<K, V>>, m: Index<K, V>, k: K, v: V) returns (p: nat)
    requires Indexed(l, m) && k in m && v in m[k]
    ensures p == PositionOf(l, m[k][v]) < |l| && l[p].id == m[k][v]
  {
    assert Item(m[k][v], k, v) in l;
    p := PositionOf(l, m[k][v]);
  }

  lemma NodeHasPair<K(!new), V(!new)>(l: seq<Item<K, V>>, m: Index<K, V>, nextId: nat, p: nat, k: K, v: V)
    requires Indexed(l, m) && IdsDistinct(l, nextId) && k in m && v in m[k] && p < |l| && l[p].id == m[k][v]
    ensures l[p] == Item(m[k][v], k, v)
  {
    var q :| 0 <= q < |l| && l[q] == Item(m[k][v], k, v);
    assert Differ(l, p, q);
  }

  /** The index without one pair. */
  function Drop<K(==), V(==)>(m: Index<K, V>, k: K, v: V): Index<K, V>
    requires k in m
  {
    if m[k] - {v} == map[] then m - {k} else m[k := m[k] - {v}]
  }

  lemma DropShape<K(!new), V(!new)>(m: Index<K, V>, k: K, v: V)
    requires k in m && NoneEmpty(m)
    ensures var n := Drop(m, k, v);
            && (forall a :: a in n ==> a in m && n[a] != map[])
            && (forall a, b :: a in n && b in n[a] ==> b in m[a] && n[a][b] == m[a][b] && !(a == k && b == v))
            && (forall a, b :: a in m && b in m[a] && !(a == k && b == v) ==> a in n && b in n[a])
  {
    var left := m[k] - {v};
    assert forall b :: b in m[k] ==> b == v || b in left;
  }

  lemma DropCovers<K(!new), V(!new)>(l: seq<Item<K, V>>, m: Index<K, V>, nextId: nat, p: nat)
    requires Covers(l, m) && NoneEmpty(m) && IdsDistinct(l, nextId) && p < |l|
    ensures Covers(RemoveAt(l, p), Drop(m, l[p].key, l[p].value))
  {
    DropShape(m, l[p].key, l[p].value);
    var r, n := RemoveAt(l, p), Drop(m, l[p].key, l[p].value);
    forall i | 0 <= i < |r|
      ensures r[i].key in n && r[i].value in n[r[i].key] && n[r[i].key][r[i].value] == r[i].id
    {
      var j := if i < p then i else i + 1;
      assert r[i] == l[j] && Differ(l, j, p);
    }
  }

  lemma DropBacked<K(!new), V(!new)>(l: seq<Item<K, V>>, m: Index<K, V>, p: nat)
    requires Backed(l, m) && NoneEmpty(m) && p < |l| && l[p].key in m
    ensures Backed(RemoveAt(l, p), Drop(m, l[p].key, l[p].value)) && NoneEmpty(Drop(m, l[p].key, l[p].value))
  {
  }

  lemma DropIndexed<K(!new), V(!new)>(l: seq<Item<K, V>>, m: Index<K, V>, nextId: nat, p: nat)
    requires Indexed(l, m) && IdsDistinct(l, nextId) && p < |l|
    ensures l[p].key in m
    ensures Indexed(RemoveAt(l, p), Drop(m, l[p].key, l[p].value)) && IdsDistinct(RemoveAt(l, p), nextId)
  {
    DropCovers(l, m, nextId, p);
    DropBacked(l, m, p);
    RemoveDistinct(l, nextId, p);
  }

  lemma Removed<K(!new), V(!new)>(l: seq<Item<K, V>>, m: Index<K, V>, nextId: nat, p: nat, r: seq<Item<K, V>>)
    requires Indexed(l, m) && IdsDistinct(l, nextId) && p < |l| && r == RemoveAt(l, p)
    ensures |r| == |l| - 1 && l[p].key in m && Pairs(r) == RemoveAt(Pairs(l), p)
    ensures Indexed(r, Drop(m, l[p].key, l[p].value)) && IdsDistinct(r, nextId)
  {
    DropIndexed(l, m, nextId, p);
    PairsWithout(l, p);
  }

  lemma {:induction false} OtherKeysRemoved<K, V>(ps: seq<(K, V)>, p: nat)
    requires p < |ps|
    ensures OtherKeys(RemoveAt(ps, p), ps[p].0) == OtherKeys(ps, ps[p].0)
  {
    var n := |ps| - 1;
    if p == n {
      assert RemoveAt(ps, p) == ps[..n];
    } else {
      OtherKeysRemoved(ps[..n], p);
      assert RemoveAt(ps, p)[..n - 1] == RemoveAt(ps[..n], p);
    }
  }

  lemma {:induction false} AllOtherKeys<K, V>(ps: seq<(K, V)>, k: K)
    requires forall i :: 0 <= i < |ps| ==> ps[i].0 != k
    ensures OtherKeys(ps, k) == ps
  {
    if ps != [] { AllOtherKeys(ps[..|ps| - 1], k); }
  }

  lemma NoneLeft<K(!new), V(!new)>(l: seq<Item<K, V>>, m: Index<K, V>, k: K)
    requires Covers(l, m) && k !in m
    ensures OtherKeys(Pairs(l), k) == Pairs(l)
  {
    forall i | 0 <= i < |l| ensures Pairs(l)[i].0 != k { assert l[i].key in m; }
    AllOtherKeys(Pairs(l), k);
  }

  class CacheMultiMap<K(==,!new), V(==,!new)> {
    const nMaxSize: nat
    var nCurrentSize: nat
    var listItems: seq<Item<K, V>>
    var mapIndex: Index<K, V>
    var nextId: nat

    ghost predicate Valid()
      reads this
    {
      && nCurrentSize == |listItems| && (nMaxSize >= 1 ==> nCurrentSize <= nMaxSize)
      && IdsDistinct(listItems, nextId) && Indexed(listItems, mapIndex)
    }

    ghost function Contents(): seq<(K, V)>
      reads this
    {
      Pairs(listItems)
    }

    constructor (nMaxSizeIn: nat)
      ensures Valid() && Contents() == [] && nMaxSize == nMaxSizeIn
    {
      nMaxSize, nCurrentSize, listItems, mapIndex, nextId := nMaxSizeIn, 0, [], map[], 0;
    }

    /** The oldest item goes first, even when the new one turns out to be there already. A maximum
        of 0 limits nothing. */
    method Insert(key: K, value: V) returns (added: bool)
      requires Valid()
      modifies this
      ensures Valid()
      ensures var kept := if |old(Contents())| == nMaxSize >= 1 then old(Contents())[..nMaxSize - 1]
                          else old(Contents());
              && added == ((key, value) !in kept)
              && Contents() == if added then [(key, value)] + kept else kept
    {
      if nCurrentSize == nMaxSize { PruneLast(); }
      if key in mapIndex && value in mapIndex[key] {
        assert Item(mapIndex[key][value], key, value) in listItems;
        return false;
      }
      NotThere(listItems, mapIndex, key, value);
      PushFront(key, value);
      added := true;
    }

    method PushFront(key: K, value: V)
      requires Valid() && (key !in mapIndex || value !in mapIndex[key]) && (nMaxSize >= 1 ==> nCurrentSize < nMaxSize)
      modifies this
      ensures Valid() && Contents() == [(key, value)] + old(Contents())
    {
      PairsFront(listItems, Item(nextId, key, value));
      EnterIndexed(listItems, mapIndex, nextId, key, value);
      EnterDistinct(listItems, nextId, Item(nextId, key, value));
      listItems := [Item(nextId, key, value)] + listItems;
      mapIndex := mapIndex[key := (if key in mapIndex then mapIndex[key] else map[])[value := nextId]];
      nextId := nextId + 1;
      nCurrentSize := nCurrentSize + 1;
    }

    /** All the values of a key, and whether there are any. */
    method GetAll(key: K) returns (ok: bool, values: set<V>)
      requires Valid()
      ensures forall v :: v in values <==> (key, v) in Contents()
      ensures ok <==> values != {}
    {
      if key !in mapIndex {
        assert forall i :: 0 <= i < |listItems| ==> Contents()[i].0 != key;
        return false, {};
      }
      values := mapIndex[key].Keys;
      ok := true;
      forall v
        ensures v in values <==> (key, v) in Contents()
      {
        if v in values {
          var p :| 0 <= p < |listItems| && listItems[p] == Item(mapIndex[key][v], key, v);
          assert Contents()[p] == (key, v);
        }
        if (key, v) in Contents() {
          var p :| 0 <= p < |listItems| && Contents()[p] == (key, v);
        }
      }
    }

    /** Unlink the node at p and drop its pair from the index. */
    method RemoveNode(p: nat)
      requires Valid() && p < |listItems|
      modifies this`listItems, this`mapIndex, this`nCurrentSize
      ensures Valid() && listItems == RemoveAt(old(listItems), p)
      ensures Contents() == RemoveAt(old(Contents()), p)
    {
      var item := listItems[p];
      Removed(listItems, mapIndex, nextId, p, RemoveAt(listItems, p));
      mapIndex := Drop(mapIndex, item.key, item.value);
      listItems := RemoveAt(listItems, p);
      nCurrentSize := nCurrentSize - 1;
    }

    method EraseValue(key: K, value: V)
      requires Valid()
      modifies this`listItems, this`mapIndex, this`nCurrentSize
      ensures Valid()
      ensures (key, value) !in old(Contents()) ==> Contents() == old(Contents())
      ensures (key, value) in old(Contents()) ==>
                exists p :: 0 <= p < |old(Contents())| && old(Contents())[p] == (key, value) &&
                            Contents() == RemoveAt(old(Contents()), p)
    {
      if key !in mapIndex || value !in mapIndex[key] {
        NotThere(listItems, mapIndex, key, value);
        return;
      }
      ghost var p := NodeOf(listItems, mapIndex, key, value);
      NodeHasPair(listItems, mapIndex, nextId, p, key, value);
      assert Contents()[p] == (key, value);
      RemoveNode(PositionOf(listItems, mapIndex[key][value]));
    }

    /** The values of a key, one node after the other. */
    method Erase(key: K)
      requires Valid()
      modifies this`listItems, this`mapIndex, this`nCurrentSize
      ensures Valid() && SomeOf(Contents(), old(Contents()))
      ensures forall x :: x in Contents() <==> x in old(Contents()) && x.0 != key
    {
      ghost var was := Contents();
      while key in mapIndex
        invariant Valid() && OtherKeys(Contents(), key) == OtherKeys(old(Contents()), key)
        decreases |listItems|
      {
        EraseOne(key);
      }
      NoneLeft(listItems, mapIndex, key);
      OtherKeysAre(was, key);
    }

    /** The body of that loop. */
    method EraseOne(key: K)
      requires Valid() && key in mapIndex
      modifies this`listItems, this`mapIndex, this`nCurrentSize
      ensures Valid() && |listItems| == |old(listItems)| - 1
      ensures OtherKeys(Contents(), key) == OtherKeys(old(Contents()), key)
    {
      var value := Pick(mapIndex[key].Keys);
      ghost var p := NodeOf(listItems, mapIndex, key, value);
      NodeHasPair(listItems, mapIndex, nextId, p, key, value);
      OtherKeysRemoved(Contents(), p);
      RemoveNode(PositionOf(listItems, mapIndex[key][value]));
    }

    method PruneLast()
      requires Valid()
      modifies this`listItems, this`mapIndex, this`nCurrentSize
      ensures Valid() && |Contents()| == if |old(Contents())| == 0 then 0 else |old(Contents())| - 1
      ensures Contents() == if |old(Contents())| == 0 then [] else old(Contents())[..|old(Contents())| - 1]
    {
      if nCurrentSize < 1 { return; }
      RemoveNode(|listItems| - 1);
    }

    /** The index made anew from any list and any size, as read from disk: the last node of every
        pair is indexed.  The object is consistent exactly when no pair is repeated and the size
        read is that of the list, and within the maximum. */
    method RebuildIndex()
      requires IdsDistinct(listItems, nextId)
      modifies this`mapIndex
      ensures LastOfEach(listItems, mapIndex)
      ensures Valid() <==> && PairsDistinct(Pairs(listItems)) && nCurrentSize == |listItems|
                           && (nMaxSize >= 1 ==> nCurrentSize <= nMaxSize)
    {
      mapIndex := map[];
      for i := 0 to |listItems|
        invariant LastOfEach(listItems[..i], mapIndex)
      {
        var item := listItems[i];
        NextLast(listItems, i, mapIndex);
        mapIndex := mapIndex[item.key :=
                             (if item.key in mapIndex then mapIndex[item.key] else map[])[item.value := item.id]];
      }
      assert listItems[..|listItems|] == listItems;
      IndexedIff(listItems, mapIndex, nextId);
    }
  }

  ghost predicate PairsDistinct<K, V>(ps: seq<(K, V)>) { forall i, j :: 0 <= i < j < |ps| ==> ps[i] != ps[j] }

  lemma EnterDistinct<K, V>(l: seq<Item<K, V>>, nextId: nat, x: Item<K, V>)
    requires IdsDistinct(l, nextId) && x.id == nextId
    ensures IdsDistinct([x] + l, nextId + 1)
  {
    forall i: nat, j: nat | i < |l| + 1 && j < |l| + 1
      ensures Differ([x] + l, i, j)
    {
      if i > 0 && j > 0 { assert Differ(l, i - 1, j - 1); }
    }
  }

  lemma PairsFront<K, V>(l: seq<Item<K, V>>, x: Item<K, V>)
    ensures Pairs([x] + l) == [(x.key, x.value)] + Pairs(l)
  {
  }

  lemma NotThere<K(!new), V(!new)>(l: seq<Item<K, V>>, m: Index<K, V>, k: K, v: V)
    requires Indexed(l, m) && (k !in m || v !in m[k])
    ensures (k, v) !in Pairs(l)
  {
  }

  /** A new node, with a number of its own, under a pair of its own. */
  lemma EnterIndexed<K(!new), V(!new)>(l: seq<Item<K, V>>, m: Index<K, V>, id: nat, k: K, v: V)
    requires Indexed(l, m) && (k !in m || v !in m[k])
    ensures Indexed([Item(id, k, v)] + l, m[k := (if k in m then m[k] else map[])[v := id]])
  {
    var r, n := [Item(id, k, v)] + l, m[k := (if k in m then m[k] else map[])[v := id]];
    assert r[0] == Item(id, k, v);
    assert v in n[k];
    forall a, b | a in n && b in n[a]
      ensures Item(n[a][b], a, b) in r
    {
      if a == k && b == v { assert r[0] in r; } else { assert Item(m[a][b], a, b) in l; }
    }
  }

  // ---- the index made anew ----

  ghost predicate IsLast<K(!new), V(!new)>(l: seq<Item<K, V>>, i: int, k: K, v: V) {
    0 <= i < |l| && l[i].key == k && l[i].value == v && forall j :: i < j < |l| ==> !(l[j].key == k && l[j].value == v)
  }

  ghost predicate Has<K(!new), V(!new)>(m: Index<K, V>, k: K, v: V) { k in m && v in m[k] }

  /** Exactly the pairs of the list are indexed, each under the last of its nodes. */
  ghost predicate LastOfEach<K(!new), V(!new)>(l: seq<Item<K, V>>, m: Index<K, V>) {
    && NoneEmpty(m)
    && (forall i :: 0 <= i < |l| ==> Has(m, l[i].key, l[i].value))
    && (forall k, v :: Has(m, k, v) ==> exists i :: IsLast(l, i, k, v) && l[i].id == m[k][v])
  }

  lemma HasPut<K(!new), V(!new)>(m: Index<K, V>, x: Item<K, V>)
    requires NoneEmpty(m)
    ensures var n := m[x.key := (if x.key in m then m[x.key] else map[])[x.value := x.id]];
            && NoneEmpty(n)
            && (forall k, v :: Has(n, k, v) <==> Has(m, k, v) || (k == x.key && v == x.value))
            && (forall k, v :: Has(m, k, v) && !(k == x.key && v == x.value) ==> n[k][v] == m[k][v])
            && n[x.key][x.value] == x.id
  {
    var n := m[x.key := (if x.key in m then m[x.key] else map[])[x.value := x.id]];
    assert x.value in n[x.key];
    forall k, v
      ensures Has(n, k, v) <==> Has(m, k, v) || (k == x.key && v == x.value)
    {
      if k != x.key { assert k in n <==> k in m; }
    }
  }

  lemma NextLast<K(!new), V(!new)>(l: seq<Item<K, V>>, it: nat, m: Index<K, V>)
    requires it < |l| && LastOfEach(l[..it], m)
    ensures var x := l[it];
            LastOfEach(l[..it + 1], m[x.key := (if x.key in m then m[x.key] else map[])[x.value := x.id]])
  {
    var x, r := l[it], l[..it + 1];
    var n := m[x.key := (if x.key in m then m[x.key] else map[])[x.value := x.id]];
    HasPut(m, x);
    forall i | 0 <= i < |r|
      ensures Has(n, r[i].key, r[i].value)
    {
      if i < it { assert r[i] == l[..it][i]; }
    }
    assert IsLast(r, it, x.key, x.value);
    forall k, v | Has(n, k, v) && !(k == x.key && v == x.value)
      ensures exists i :: IsLast(r, i, k, v) && r[i].id == n[k][v]
    {
      var i :| IsLast(l[..it], i, k, v) && l[..it][i].id == m[k][v];
      StillLast(l, it, i, k, v);
    }
  }

  lemma StillLast<K(!new), V(!new)>(l: seq<Item<K, V>>, it: nat, i: nat, k: K, v: V)
    requires it < |l| && IsLast(l[..it], i, k, v) && !(l[it].key == k && l[it].value == v)
    ensures IsLast(l[..it + 1], i, k, v) && l[..it + 1][i] == l[..it][i]
  {
    forall j | i < j < it
      ensures l[..it + 1][j] == l[..it][j]
    {
    }
  }

  /** Such an index has every node exactly when no pair is repeated. */
  lemma IndexedIff<K(!new), V(!new)>(l: seq<Item<K, V>>, m: Index<K, V>, nextId: nat)
    requires IdsDistinct(l, nextId) && LastOfEach(l, m)
    ensures Indexed(l, m) <==> PairsDistinct(Pairs(l))
  {
    forall k, v | k in m && v in m[k]
      ensures Item(m[k][v], k, v) in l
    {
      assert Has(m, k, v);
      var i :| IsLast(l, i, k, v) && l[i].id == m[k][v];
      assert l[i] == Item(m[k][v], k, v);
    }
    if PairsDistinct(Pairs(l)) { DistinctCovers(l, m); }
    if Indexed(l, m) { CoversDistinct(l, m, nextId); }
  }

  lemma DistinctCovers<K(!new), V(!new)>(l: seq<Item<K, V>>, m: Index<K, V>)
    requires LastOfEach(l, m) && PairsDistinct(Pairs(l))
    ensures Covers(l, m)
  {
    forall i | 0 <= i < |l|
      ensures l[i].key in m && l[i].value in m[l[i].key] && m[l[i].key][l[i].value] == l[i].id
    {
      assert Has(m, l[i].key, l[i].value);
      var p :| IsLast(l, p, l[i].key, l[i].value) && l[p].id == m[l[i].key][l[i].value];
      assert Pairs(l)[p] == Pairs(l)[i];
    }
  }

  lemma CoversDistinct<K(!new), V(!new)>(l: seq<Item<K, V>>, m: Index<K, V>, nextId: nat)
    requires IdsDistinct(l, nextId) && Covers(l, m)
    ensures PairsDistinct(Pairs(l))
  {
    forall i, j | 0 <= i < j < |l|
      ensures Pairs(l)[i] != Pairs(l)[j]
    {
      assert Differ(l, i, j);
    }
  }
}
