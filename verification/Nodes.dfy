/** Linked lists whose nodes other structures point at: a node keeps a number that is never
    used again, as a list iterator keeps designating its node. */
module Nodes {

  datatype Item<K, V> = Item(id: nat, key: K, value: V)

  /** The contents, newest first. */
  function Pairs<K, V>(l: seq<Item<K, V>>): (r: seq<(K, V)>)
    ensures |r| == |l| && forall i :: 0 <= i < |l| ==> r[i] == (l[i].key, l[i].value)
  {
    seq(|l|, i requires 0 <= i < |l| => (l[i].key, l[i].value))
  }

  function RemoveAt<T>(s: seq<T>, p: nat): (r: seq<T>)
    requires p < |s|
    ensures |r| == |s| - 1 && forall i :: 0 <= i < |r| ==> r[i] == s[if i < p then i else i + 1]
  {
    s[..p] + s[p + 1..]
  }

  /** Where the node with a number is. */
  function PositionOf<K, V>(l: seq<Item<K, V>>, id: nat): (p: nat)
    ensures p <= |l| && (p < |l| ==> l[p].id == id) && forall i :: 0 <= i < p ==> l[i].id != id
  {
    if l == [] || l[0].id == id then 0 else 1 + PositionOf(l[1..], id)
  }

  lemma PairsWithout<K, V>(l: seq<Item<K, V>>, p: nat)
    requires p < |l|
    ensures Pairs(RemoveAt(l, p)) == RemoveAt(Pairs(l), p)
  {
  }

  /** Some of the elements of a sequence, in its order. */
  ghost predicate SomeOf<T>(s: seq<T>, t: seq<T>) {
    || s == []
    || (t != [] && s[|s| - 1] == t[|t| - 1] && SomeOf(s[..|s| - 1], t[..|t| - 1]))
    || (t != [] && SomeOf(s, t[..|t| - 1]))
  }

  lemma {:induction false} SomeOfMore<T>(s: seq<T>, t: seq<T>, x: T)
    requires SomeOf(s, t)
    ensures SomeOf(s, t + [x]) && SomeOf(s + [x], t + [x])
  {
    assert (t + [x])[..|t|] == t && (s + [x])[..|s|] == s;
  }

  /** One more element of the whole, taken or not. */
  lemma {:induction false} KeepOrDrop<T>(s: seq<T>, t: seq<T>, x: T, keep: bool, r: seq<T>, all: seq<T>)
    requires SomeOf(s, t) && r == s + (if keep then [x] else []) && all == t + [x]
    ensures SomeOf(r, all)
    ensures forall y :: y in r <==> y in s || (keep && y == x)
    ensures forall y :: y in all <==> y in t || y == x
  {
    SomeOfMore(s, t, x);
    assert s + [] == s;
  }
}
