/** Lists with an index of their nodes by key: the map that keeps the most recently added items,
    and the votes held for a governance object. A node is known by a number never used again. */
module CacheMap {
  import opened Nodes
  import opened Wrappers

  /** Every node is indexed under its key, and nothing but the list's nodes is. */
  ghost predicate Indexed<K(!new), V>(l: seq<Item<K, V>>, m: map<K, nat>, nextId: nat) {
    && (forall i :: 0 <= i < |l| ==> l[i].id < nextId && l[i].key in m && m[l[i].key] == l[i].id)
    && (forall k :: k in m ==> exists i :: 0 <= i < |l| && l[i].key == k)
    && (forall i, j :: 0 <= i < j < |l| ==> l[i].id != l[j].id)
  }

  lemma NodeOf<K(!new), V>(l: seq<Item<K, V>>, m: map<K, nat>, nextId: nat, k: K) returns (p: nat)
    requires Indexed(l, m, nextId) && k in m
    ensures p == PositionOf(l, m[k]) < |l| && l[p].key == k
  {
    var i :| 0 <= i < |l| && l[i].key == k;
    p := PositionOf(l, m[k]);
  }

  lemma RemoveIndexed<K(!new), V>(l: seq<Item<K, V>>, m: map<K, nat>, nextId: nat, p: nat)
    requires Indexed(l, m, nextId) && p < |l|
    ensures Indexed(RemoveAt(l, p), m - {l[p].key}, nextId)
  {
    var r := RemoveAt(l, p);
    RemoveListed(l, m, nextId, p, r);
    RemoveReached(l, m, p, r);
    forall i, j | 0 <= i < j < |r|
      ensures r[i].id != r[j].id
    {
      assert r[i] == l[if i < p then i else i + 1] && r[j] == l[if j < p then j else j + 1];
    }
  }

  lemma RemoveListed<K(!new), V>(l: seq<Item<K, V>>, m: map<K, nat>, nextId: nat, p: nat, r: seq<Item<K, V>>)
    requires forall i :: 0 <= i < |l| ==> l[i].id < nextId && l[i].key in m && m[l[i].key] == l[i].id
    requires forall i, j :: 0 <= i < j < |l| ==> l[i].id != l[j].id
    requires p < |l| && r == RemoveAt(l, p)
    ensures forall i :: 0 <= i < |r| ==>
              r[i].id < nextId && r[i].key in m - {l[p].key} && (m - {l[p].key})[r[i].key] == r[i].id
  {
    forall i | 0 <= i < |r|
      ensures r[i].id < nextId && r[i].key in m && r[i].key != l[p].key && m[r[i].key] == r[i].id
    {
      var j := if i < p then i else i + 1;
      assert r[i] == l[j];
      assert l[j].id != l[p].id by { if j < p { assert l[j].id != l[p].id; } else { assert l[p].id != l[j].id; } }
    }
  }

  lemma RemoveReached<K(!new), V>(l: seq<Item<K, V>>, m: map<K, nat>, p: nat, r: seq<Item<K, V>>)
    requires forall k :: k in m ==> exists i :: 0 <= i < |l| && l[i].key == k
    requires p < |l| && r == RemoveAt(l, p)
    ensures forall k :: k in m - {l[p].key} ==> exists i :: 0 <= i < |r| && r[i].key == k
  {
    forall k | k in m && k != l[p].key
      ensures exists i :: 0 <= i < |r| && r[i].key == k
    {
      var j :| 0 <= j < |l| && l[j].key == k;
      assert r[if j < p then j else j - 1] == l[j];
    }
  }

  lemma UpdateIndexed<K(!new), V>(l: seq<Item<K, V>>, m: map<K, nat>, nextId: nat, p: nat, v: V)
    requires Indexed(l, m, nextId) && p < |l|
    ensures var r := l[p := l[p].(value := v)];
            Indexed(r, m, nextId) && Pairs(r) == Pairs(l)[p := (l[p].key, v)]
  {
    var r := l[p := l[p].(value := v)];
    forall i | 0 <= i < |l| ensures r[i].id == l[i].id && r[i].key == l[i].key {}
    forall k | k in m
      ensures exists i :: 0 <= i < |r| && r[i].key == k
    {
      var i :| 0 <= i < |l| && l[i].key == k;
      assert r[i].key == k;
    }
  }

  lemma EnterIndexed<K(!new), V>(l: seq<Item<K, V>>, m: map<K, nat>, nextId: nat, k: K, v: V)
    requires Indexed(l, m, nextId) && k !in m
    ensures Indexed([Item(nextId, k, v)] + l, m[k := nextId], nextId + 1)
  {
    var r, n := [Item(nextId, k, v)] + l, m[k := nextId];
    forall i | 0 <= i < |r|
      ensures r[i].id < nextId + 1 && r[i].key in n && n[r[i].key] == r[i].id
    {
      if i > 0 { assert r[i] == l[i - 1]; }
    }
    assert r[0].key == k;
    forall a | a in m
      ensures exists i :: 0 <= i < |r| && r[i].key == a
    {
      var j :| 0 <= j < |l| && l[j].key == a;
      assert r[j + 1] == l[j];
    }
  }

  lemma AddedTwice<K(!new), V>(l: seq<Item<K, V>>, m: map<K, nat>, nextId: nat, k: K, v: V)
    requires Indexed(l, m, nextId) && k in m
    ensures !Indexed([Item(nextId, k, v)] + l, m[k := nextId], nextId + 1)
  {
    var p := NodeOf(l, m, nextId, k);
    assert ([Item(nextId, k, v)] + l)[p + 1] == l[p];
  }

  lemma EnterPairs<K, V>(l: seq<Item<K, V>>, x: Item<K, V>)
    ensures Pairs([x] + l) == [(x.key, x.value)] + Pairs(l)
  {
  }

  lemma AbsentKey<K(!new), V>(l: seq<Item<K, V>>, m: map<K, nat>, nextId: nat, k: K)
    requires Indexed(l, m, nextId) && k !in m
    ensures forall i :: 0 <= i < |l| ==> Pairs(l)[i].0 != k
  {
  }

  ghost predicate KeysDistinct<K, V>(ps: seq<(K, V)>) { forall i, j :: 0 <= i < j < |ps| ==> ps[i].0 != ps[j].0 }

  class CacheMap<K(==,!new), V(==,!new)> {
    const nMaxSize: nat
    var nCurrentSize: nat
    var listItems: seq<Item<K, V>>
    var mapIndex: map<K, nat>
    var nextId: nat

    ghost predicate Valid()
      reads this
    {
      && nCurrentSize == |listItems| && (nMaxSize >= 1 ==> nCurrentSize <= nMaxSize)
      && Indexed(listItems, mapIndex, nextId)
    }

    ghost function Contents(): seq<(K, V)>
      reads this
    {
      Pairs(listItems)
    }

    constructor (nMaxSizeIn: nat)
      ensures Valid() && Contents() == [] && nMaxSize == nMaxSizeIn
    {
      nMaxSize, nCurrentSize, listItems, mapIndex, nextId := nMaxSizeIn, 0, [], map[], 0;
    }

    /** A key that is there keeps its place; a new one pushes out the oldest item when full. A
        maximum of 0 limits nothing. */
    method Insert(key: K, value: V)
      requires Valid()
      modifies this
      ensures Valid()
      ensures old(key in mapIndex) ==> exists p :: 0 <= p < |old(Contents())| && old(Contents())[p].0 == key &&
                                         Contents() == old(Contents())[p := (key, value)]
      ensures old(key !in mapIndex) ==> Contents() == [(key, value)] + if |old(Contents())| == nMaxSize >= 1
                                          then old(Contents())[..nMaxSize - 1] else old(Contents())
    {
      if key in mapIndex {
        ghost var q := NodeOf(listItems, mapIndex, nextId, key);
        var p := PositionOf(listItems, mapIndex[key]);
        UpdateIndexed(listItems, mapIndex, nextId, p, value);
        listItems := listItems[p := listItems[p].(value := value)];
        assert old(Contents())[p].0 == key && Contents() == old(Contents())[p := (key, value)];
        return;
      }
      if nCurrentSize == nMaxSize { PruneLast(); }
      EnterIndexed(listItems, mapIndex, nextId, key, value);
      EnterPairs(listItems, Item(nextId, key, value));
      listItems := [Item(nextId, key, value)] + listItems;
      mapIndex := mapIndex[key := nextId];
      nextId := nextId + 1;
      nCurrentSize := nCurrentSize + 1;
    }

    method Get(key: K) returns (r: Option<V>)
      requires Valid()
      ensures r == None <==> forall i :: 0 <= i < |Contents()| ==> Contents()[i].0 != key
      ensures r.Some? ==> (key, r.value) in Contents()
    {
      if key !in mapIndex {
        AbsentKey(listItems, mapIndex, nextId, key);
        return None;
      }
      ghost var q := NodeOf(listItems, mapIndex, nextId, key);
      assert Contents()[q] == (key, listItems[q].value);
      r := Some(listItems[PositionOf(listItems, mapIndex[key])].value);
    }

    method Erase(key: K)
      requires Valid()
      modifies this`listItems, this`mapIndex, this`nCurrentSize
      ensures Valid()
      ensures old(key !in mapIndex) ==> Contents() == old(Contents())
      ensures old(key in mapIndex) ==> exists p :: 0 <= p < |old(Contents())| && old(Contents())[p].0 == key &&
                                         Contents() == RemoveAt(old(Contents()), p)
    {
      if key !in mapIndex { return; }
      ghost var q := NodeOf(listItems, mapIndex, nextId, key);
      assert Contents()[q].0 == key;
      RemoveIndexed(listItems, mapIndex, nextId, q);
      PairsWithout(listItems, q);
      listItems := RemoveAt(listItems, PositionOf(listItems, mapIndex[key]));
      mapIndex := mapIndex - {key};
      nCurrentSize := nCurrentSize - 1;
    }

    method PruneLast()
      requires Valid()
      modifies this`listItems, this`mapIndex, this`nCurrentSize
      ensures Valid() && |listItems| == if |old(listItems)| == 0 then 0 else |old(listItems)| - 1
      ensures Contents() == if |old(Contents())| == 0 then [] else old(Contents())[..|old(Contents())| - 1]
      ensures forall k :: k in mapIndex ==> k in old(mapIndex)
    {
      if nCurrentSize < 1 { return; }
      var last := |listItems| - 1;
      RemoveIndexed(listItems, mapIndex, nextId, last);
      PairsWithout(listItems, last);
      mapIndex := mapIndex - {listItems[last].key};
      listItems := RemoveAt(listItems, last);
      nCurrentSize := nCurrentSize - 1;
    }

    /** The index made anew from any list and any size, as read from disk: the last node of every
        key is indexed.  The object is consistent exactly when no key is repeated and the size read
        is that of the list, and within the maximum. */
    method RebuildIndex()
      requires Listed(listItems, nextId)
      modifies this`mapIndex
      ensures LastOfEach(listItems, mapIndex)
      ensures Valid() <==> && KeysDistinct(Pairs(listItems)) && nCurrentSize == |listItems|
                           && (nMaxSize >= 1 ==> nCurrentSize <= nMaxSize)
    {
      mapIndex := map[];
      for it := 0 to |listItems|
        invariant LastOfEach(listItems[..it], mapIndex)
      {
        NextLast(listItems, it, mapIndex);
        mapIndex := mapIndex[listItems[it].key := listItems[it].id];
      }
      assert listItems[..|listItems|] == listItems;
      IndexedIff(listItems, mapIndex, nextId);
    }
  }

  /** Exactly the keys of the list are indexed, each under the last of its nodes. */
  ghost predicate LastOfEach<K(!new), V>(l: seq<Item<K, V>>, m: map<K, nat>) {
    && (forall i :: 0 <= i < |l| ==> l[i].key in m)
    && (forall k :: k in m ==> exists i :: IsLast(l, i, k) && l[i].id == m[k])
  }

  ghost predicate IsLast<K(!new), V>(l: seq<Item<K, V>>, i: int, k: K) {
    0 <= i < |l| && l[i].key == k && forall j :: i < j < |l| ==> l[j].key != k
  }

  lemma NextLast<K(!new), V>(l: seq<Item<K, V>>, it: nat, m: map<K, nat>)
    requires it < |l| && LastOfEach(l[..it], m)
    ensures LastOfEach(l[..it + 1], m[l[it].key := l[it].id])
  {
    var r, n := l[..it + 1], m[l[it].key := l[it].id];
    forall i | 0 <= i < |r|
      ensures r[i].key in n
    {
      if i < it { assert r[i] == l[..it][i]; }
    }
    assert IsLast(r, it, l[it].key);
    forall k | k in m && k != l[it].key
      ensures exists i :: IsLast(r, i, k) && r[i].id == n[k]
    {
      var i :| IsLast(l[..it], i, k) && l[..it][i].id == m[k];
      forall j | i < j < |r|
        ensures r[j].key != k
      {
        if j < it { assert r[j] == l[..it][j]; }
      }
      assert r[i] == l[..it][i];
      assert IsLast(r, i, k);
    }
  }

  /** Such an index has every node exactly when no key is repeated. */
  lemma IndexedIff<K(!new), V>(l: seq<Item<K, V>>, m: map<K, nat>, nextId: nat)
    requires Listed(l, nextId) && LastOfEach(l, m)
    ensures Indexed(l, m, nextId) <==> KeysDistinct(Pairs(l))
  {
    if KeysDistinct(Pairs(l)) {
      forall i | 0 <= i < |l|
        ensures m[l[i].key] == l[i].id
      {
        var p :| IsLast(l, p, l[i].key) && l[p].id == m[l[i].key];
        assert Pairs(l)[p].0 == Pairs(l)[i].0;
      }
    }
    if Indexed(l, m, nextId) {
      forall i, j | 0 <= i < j < |l|
        ensures Pairs(l)[i].0 != Pairs(l)[j].0
      {
        assert l[i].id != l[j].id;
      }
    }
  }

  // ---- the vote file ----

  /** The list without the items of one safenode. */
  function Others<K, V>(l: seq<Item<K, V>>, of: V -> bool): (r: seq<Item<K, V>>) {
    if l == [] then [] else Others(l[..|l| - 1], of) + if of(l[|l| - 1].value) then [] else [l[|l| - 1]]
  }

  lemma {:induction false} OthersAre<K, V>(l: seq<Item<K, V>>, of: V -> bool)
    ensures SomeOf(Others(l, of), l) && forall x :: x in Others(l, of) <==> x in l && !of(x.value)
  {
    if l != [] {
      var n := |l| - 1;
      OthersAre(l[..n], of);
      KeepOrDrop(Others(l[..n], of), l[..n], l[n], !of(l[n].value), Others(l, of), l);
    }
  }

  /** The first item of every key. */
  function Firsts<K(==), V>(l: seq<Item<K, V>>): (r: seq<Item<K, V>>)
    ensures |r| <= |l|
  {
    if l == [] then []
    else Firsts(l[..|l| - 1]) + if exists i :: 0 <= i < |l| - 1 && l[i].key == l[|l| - 1].key then [] else [l[|l| - 1]]
  }

  lemma {:induction false} FirstsAre<K(!new), V(!new)>(l: seq<Item<K, V>>)
    ensures FirstOfEach(Firsts(l), l)
  {
    if l != [] {
      var n := |l| - 1;
      FirstsAre(l[..n]);
      KeepOrDrop(Firsts(l[..n]), l[..n], l[n], !exists i :: 0 <= i < n && l[i].key == l[n].key, Firsts(l), l);
      forall x
        ensures x in Firsts(l) <==> exists i :: IsFirst(l, i) && l[i] == x
      {
        FirstSplit(l, n, x);
      }
    }
  }

  lemma {:induction false} FirstSplit<K, V>(l: seq<Item<K, V>>, n: nat, x: Item<K, V>)
    requires n == |l| - 1
    ensures (exists i :: IsFirst(l, i) && l[i] == x) <==>
              (exists i :: IsFirst(l[..n], i) && l[..n][i] == x) || (IsFirst(l, n) && x == l[n])
    ensures IsFirst(l, n) <==> !exists i :: 0 <= i < n && l[i].key == l[n].key
  {
    forall i | 0 <= i < n
      ensures IsFirst(l[..n], i) <==> IsFirst(l, i)
    {
      FirstBefore(l, n, i);
    }
  }

  lemma {:induction false} FirstBefore<K, V>(l: seq<Item<K, V>>, n: nat, i: nat)
    requires i < n <= |l|
    ensures IsFirst(l[..n], i) <==> IsFirst(l, i)
  {
    forall j | 0 <= j < i
      ensures l[..n][j] == l[j]
    {
    }
  }

  /** The items of a list with a key that no earlier one has, in their order. */
  ghost predicate FirstOfEach<K(!new), V(!new)>(s: seq<Item<K, V>>, l: seq<Item<K, V>>) {
    SomeOf(s, l) && forall x :: x in s <==> exists i :: IsFirst(l, i) && l[i] == x
  }

  /** No earlier item has its key. */
  ghost predicate IsFirst<K, V>(l: seq<Item<K, V>>, i: int) {
    0 <= i < |l| && forall j :: 0 <= j < i ==> l[j].key != l[i].key
  }

  class CGovernanceObjectVoteFile<H(==,!new), V(==,!new)> {
    const hash: V -> H
    var nMemoryVotes: nat
    var listVotes: seq<Item<H, V>>
    var mapVoteIndex: map<H, nat>
    var nextId: nat

    ghost predicate Valid()
      reads this
    {
      && nMemoryVotes == |listVotes| && Indexed(listVotes, mapVoteIndex, nextId)
      && forall i :: 0 <= i < |listVotes| ==> listVotes[i].key == hash(listVotes[i].value)
    }

    /** The votes, newest first. */
    ghost function Votes(): seq<(H, V)>
      reads this
    {
      Pairs(listVotes)
    }

    constructor (hashIn: V -> H)
      ensures Valid() && Votes() == []
    {
      hash, nMemoryVotes, listVotes, mapVoteIndex, nextId := hashIn, 0, [], map[], 0;
    }

    predicate HasVote(h: H)
      reads this
    {
      h in mapVoteIndex
    }

    /** The vote becomes the newest, and is the one indexed under its hash.  List, index and count
        go on agreeing exactly when no vote of that hash was held; the one caller asks first. */
    method AddVote(vote: V)
      requires Valid()
      modifies this
      ensures Votes() == [(hash(vote), vote)] + old(Votes()) && nMemoryVotes == |listVotes|
      ensures HasVote(hash(vote)) && mapVoteIndex == old(mapVoteIndex)[hash(vote) := listVotes[0].id]
      ensures Valid() <==> !old(HasVote(hash(vote)))
    {
      ghost var l, m := listVotes, mapVoteIndex;
      if !HasVote(hash(vote)) {
        EnterIndexed(listVotes, mapVoteIndex, nextId, hash(vote), vote);
      } else {
        AddedTwice(l, m, nextId, hash(vote), vote);
      }
      EnterPairs(listVotes, Item(nextId, hash(vote), vote));
      listVotes := [Item(nextId, hash(vote), vote)] + listVotes;
      mapVoteIndex := mapVoteIndex[hash(vote) := nextId];
      nextId := nextId + 1;
      nMemoryVotes := nMemoryVotes + 1;
    }

    method GetVote(h: H) returns (r: Option<V>)
      requires Valid()
      ensures r == None <==> forall i :: 0 <= i < |Votes()| ==> Votes()[i].0 != h
      ensures r.Some? ==> (h, r.value) in Votes() && hash(r.value) == h
    {
      if h !in mapVoteIndex {
        AbsentKey(listVotes, mapVoteIndex, nextId, h);
        return None;
      }
      ghost var q := NodeOf(listVotes, mapVoteIndex, nextId, h);
      assert Votes()[q] == (h, listVotes[q].value);
      r := Some(listVotes[PositionOf(listVotes, mapVoteIndex[h])].value);
    }

    method RemoveVotesFromSafenode(of: V -> bool)
      requires Valid()
      modifies this`nMemoryVotes, this`listVotes, this`mapVoteIndex
      ensures Valid() && SomeOf(listVotes, old(listVotes))
      ensures forall x :: x in listVotes <==> x in old(listVotes) && !of(x.value)
    {
      ghost var was, seen := listVotes, 0;
      var it := 0;
      FilterStart(was, of);
      while it < |listVotes|
        invariant Valid() && Filtering(listVotes, it, was, seen, of)
        decreases |listVotes| - it
      {
        FilterStep(listVotes, it, was, seen, of);
        if of(listVotes[it].value) {
          RemoveNode(it);
        } else {
          it := it + 1;
        }
        seen := seen + 1;
      }
      FilterEnd(listVotes, it, was, seen, of);
    }

    method RemoveNode(it: nat)
      requires Valid() && it < |listVotes|
      modifies this`nMemoryVotes, this`listVotes, this`mapVoteIndex
      ensures Valid() && listVotes == RemoveAt(old(listVotes), it)
    {
      RemoveIndexed(listVotes, mapVoteIndex, nextId, it);
      nMemoryVotes := nMemoryVotes - 1;
      mapVoteIndex := mapVoteIndex - {listVotes[it].key};
      listVotes := RemoveAt(listVotes, it);
    }

    method RebuildOne(it: nat, ghost was: seq<Item<H, V>>, ghost seen: nat) returns (next: nat)
      requires it == nMemoryVotes < |listVotes| && Rebuilding(listVotes, it, was, seen, mapVoteIndex, nextId)
      requires forall i :: 0 <= i < |listVotes| ==> listVotes[i].key == hash(listVotes[i].value)
      modifies this`nMemoryVotes, this`listVotes, this`mapVoteIndex
      ensures next == nMemoryVotes && Rebuilding(listVotes, next, was, seen + 1, mapVoteIndex, nextId)
      ensures forall i :: 0 <= i < |listVotes| ==> listVotes[i].key == hash(listVotes[i].value)
    {
      var vote := listVotes[it];
      RebuildStep(listVotes, it, was, seen, mapVoteIndex, nextId);
      if vote.key !in mapVoteIndex {
        mapVoteIndex := mapVoteIndex[vote.key := vote.id];
        nMemoryVotes := nMemoryVotes + 1;
        next := it + 1;
      } else {
        listVotes := RemoveAt(listVotes, it);
        next := it;
      }
    }

    /** From any list, as read from disk: later items of a key are dropped. */
    method RebuildIndex()
      requires Listed(listVotes, nextId)
      requires forall i :: 0 <= i < |listVotes| ==> listVotes[i].key == hash(listVotes[i].value)
      modifies this`nMemoryVotes, this`listVotes, this`mapVoteIndex
      ensures Valid() && FirstOfEach(listVotes, old(listVotes))
    {
      ghost var was, seen := listVotes, 0;
      mapVoteIndex := map[];
      nMemoryVotes := 0;
      var it := 0;
      while it < |listVotes|
        invariant it == nMemoryVotes && Rebuilding(listVotes, it, was, seen, mapVoteIndex, nextId)
        invariant forall i :: 0 <= i < |listVotes| ==> listVotes[i].key == hash(listVotes[i].value)
        decreases |listVotes| - it
      {
        it := RebuildOne(it, was, seen);
        seen := seen + 1;
      }
      RebuildEnd(listVotes, it, was, seen, mapVoteIndex, nextId);
    }
  }

  /** The first `seen` items of a list were filtered into the first `it`. */
  ghost predicate Filtering<K, V>(l: seq<Item<K, V>>, it: nat, was: seq<Item<K, V>>, seen: nat, of: V -> bool) {
    && it <= |l| && seen <= |was| && |was| - seen == |l| - it
    && l[..it] == Others(was[..seen], of) && l[it..] == was[seen..]
  }

  lemma FilterStart<K, V>(l: seq<Item<K, V>>, of: V -> bool)
    ensures Filtering(l, 0, l, 0, of)
  {
  }

  lemma FilterEnd<K, V>(l: seq<Item<K, V>>, it: nat, was: seq<Item<K, V>>, seen: nat, of: V -> bool)
    requires Filtering(l, it, was, seen, of) && it == |l|
    ensures SomeOf(l, was) && forall x :: x in l <==> x in was && !of(x.value)
  {
    assert was[..|was|] == was && l[..it] == l;
    OthersAre(was, of);
  }

  lemma FilterStep<K, V>(l: seq<Item<K, V>>, it: nat, was: seq<Item<K, V>>, seen: nat, of: V -> bool)
    requires Filtering(l, it, was, seen, of) && it < |l|
    ensures if of(l[it].value) then Filtering(RemoveAt(l, it), it, was, seen + 1, of)
            else Filtering(l, it + 1, was, seen + 1, of)
  {
    NextItem(l, it, was, seen);
  }

  lemma NextItem<K, V>(l: seq<Item<K, V>>, it: nat, was: seq<Item<K, V>>, seen: nat)
    requires it < |l| && seen < |was| && l[it..] == was[seen..]
    ensures was[..seen + 1][..seen] == was[..seen] && was[seen] == l[it]
    ensures l[it + 1..] == was[seen + 1..] && RemoveAt(l, it)[it..] == was[seen + 1..]
    ensures RemoveAt(l, it)[..it] == l[..it] && l[..it + 1] == l[..it] + [l[it]]
  {
  }

  ghost predicate Listed<K, V>(l: seq<Item<K, V>>, nextId: nat) {
    && (forall i :: 0 <= i < |l| ==> l[i].id < nextId)
    && (forall i, j :: 0 <= i < j < |l| ==> l[i].id != l[j].id)
  }

  /** The first `seen` items of a list were indexed, or dropped, into the first `it`. */
  ghost predicate Rebuilding<K(!new), V>(l: seq<Item<K, V>>, it: nat, was: seq<Item<K, V>>, seen: nat, m: map<K, nat>,
                                         nextId: nat) {
    && it <= |l| && seen <= |was| && |was| - seen == |l| - it
    && l[..it] == Firsts(was[..seen]) && l[it..] == was[seen..]
    && Listed(l, nextId) && Indexed(l[..it], m, nextId)
    && (forall k :: k in m <==> exists i :: 0 <= i < seen && was[i].key == k)
  }

  lemma RebuildEnd<K(!new), V(!new)>(l: seq<Item<K, V>>, it: nat, was: seq<Item<K, V>>, seen: nat, m: map<K, nat>,
                                     nextId: nat)
    requires Rebuilding(l, it, was, seen, m, nextId) && it == |l|
    ensures FirstOfEach(l, was) && Indexed(l, m, nextId)
  {
    assert was[..|was|] == was && l[..it] == l;
    FirstsAre(was);
  }

  lemma RebuildStep<K(!new), V>(l: seq<Item<K, V>>, it: nat, was: seq<Item<K, V>>, seen: nat, m: map<K, nat>,
                                nextId: nat)
    requires Rebuilding(l, it, was, seen, m, nextId) && it < |l|
    ensures if l[it].key !in m then Rebuilding(l, it + 1, was, seen + 1, m[l[it].key := l[it].id], nextId)
            else Rebuilding(RemoveAt(l, it), it, was, seen + 1, m, nextId)
  {
    NextItem(l, it, was, seen);
    FirstsStep(was, seen);
    if l[it].key !in m {
      BackIndexed(l, it, m, nextId);
      SeenMore(was, seen, m, m[l[it].key := l[it].id]);
    } else {
      SeenMore(was, seen, m, m);
      ListedWithout(l, it, nextId);
    }
  }

  lemma FirstsStep<K, V>(was: seq<Item<K, V>>, seen: nat)
    requires seen < |was|
    ensures Firsts(was[..seen + 1]) ==
            Firsts(was[..seen]) + if exists i :: 0 <= i < seen && was[i].key == was[seen].key then [] else [was[seen]]
  {
    var l := was[..seen + 1];
    assert l[..seen] == was[..seen] && l[seen] == was[seen];
    assert forall i :: 0 <= i < seen ==> l[i] == was[i];
  }

  lemma SeenMore<K(!new), V>(was: seq<Item<K, V>>, seen: nat, m: map<K, nat>, n: map<K, nat>)
    requires seen < |was| && n.Keys == m.Keys + {was[seen].key}
    requires forall k :: k in m <==> exists i :: 0 <= i < seen && was[i].key == k
    ensures forall k :: k in n <==> exists i :: 0 <= i < seen + 1 && was[i].key == k
  {
  }

  lemma ListedWithout<K, V>(l: seq<Item<K, V>>, p: nat, nextId: nat)
    requires Listed(l, nextId) && p < |l|
    ensures Listed(RemoveAt(l, p), nextId)
  {
  }

  lemma BackIndexed<K(!new), V>(l: seq<Item<K, V>>, it: nat, m: map<K, nat>, nextId: nat)
    requires it < |l| && Indexed(l[..it], m, nextId) && l[it].key !in m && l[it].id < nextId
    requires forall i, j :: 0 <= i < j < |l| ==> l[i].id != l[j].id
    ensures Indexed(l[..it + 1], m[l[it].key := l[it].id], nextId)
  {
    var r := l[..it + 1];
    assert r[it] == l[it];
    forall k | k in m
      ensures exists i :: 0 <= i < |r| && r[i].key == k
    {
      var i :| 0 <= i < it && l[..it][i].key == k;
      assert r[i].key == k;
    }
    forall i | 0 <= i < it
      ensures r[i].key in m && m[r[i].key] == r[i].id
    {
      assert r[i] == l[..it][i];
    }
  }
}
