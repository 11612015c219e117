/** The Bloom filter over a byte array, and the rolling one made of two. */
module Bloom {

  datatype Key = Key(bytes: seq<nat>)

  /** The mask of a bit in its byte. */
  function Mask(k: nat): bv8
    requires k < 8
  {
    if k == 0 then 1 else if k == 1 then 2 else if k == 2 then 4 else if k == 3 then 8
    else if k == 4 then 16 else if k == 5 then 32 else if k == 6 then 64 else 128
  }

  lemma MaskBits(b: bv8, j: nat, k: nat)
    requires j < 8 && k < 8
    ensures (b | Mask(j)) & Mask(k) != 0 <==> j == k || b & Mask(k) != 0
  {
  }

  lemma AllBits(b: bv8)
    ensures b == 0xff ==> forall k :: 0 <= k < 8 ==> b & Mask(k) != 0
    ensures b == 0 ==> forall k :: 0 <= k < 8 ==> b & Mask(k) == 0
  {
  }

  class CBloomFilter {
    const vData: array<bv8>
    const nHashFuncs: nat
    const murmur: (nat, Key) -> nat
    var isFull: bool
    var isEmpty: bool
    var nTweak: nat
    ghost var inserted: set<Key>

    predicate Bit(i: nat)
      requires i < vData.Length * 8
      reads vData
    {
      vData[i / 8] & Mask(i % 8) != 0
    }

    function Hash(n: nat, key: Key): (i: nat)
      requires vData.Length > 0
      reads this`nTweak
      ensures i < vData.Length * 8
    {
      murmur((n * 0xFBA4C795 + nTweak) % 0x1_0000_0000, key) % (vData.Length * 8)
    }

    /** Every bit of a key is set. */
    ghost predicate Marked(key: Key)
      reads this, vData
    {
      vData.Length > 0 ==> forall n :: 0 <= n < nHashFuncs ==> Bit(Hash(n, key))
    }

    /** What a look-up answers. */
    ghost predicate Matches(key: Key)
      reads this, vData
    {
      isFull || (!isEmpty && Marked(key))
    }

    ghost predicate AllMarked()
      reads this, vData
    {
      forall k :: k in inserted ==> Marked(k)
    }

    /** The flags are true to the bits, and every key inserted since the last clearing is marked. */
    ghost predicate Valid()
      reads this, vData
    {
      && (nHashFuncs > 0 && vData.Length == 0 ==> isFull)
      && (isFull ==> forall i :: 0 <= i < vData.Length * 8 ==> Bit(i))
      && (isEmpty && !isFull ==> inserted == {})
      && AllMarked()
    }

    constructor (size: nat, hashFuncs: nat, hash: (nat, Key) -> nat, tweak: nat, empty: bool)
      ensures inserted == {} && fresh(vData) && vData.Length == size
      ensures Valid() <==> (hashFuncs > 0 ==> size > 0)
      ensures nHashFuncs == hashFuncs && murmur == hash && nTweak == tweak && !isFull && isEmpty == empty
    {
      vData := new bv8[size](_ => 0);
      nHashFuncs, murmur, nTweak := hashFuncs, hash, tweak;
      isFull, isEmpty, inserted := false, empty, {};
    }

    /** One of the bits of a key. */
    ghost predicate BitOf(key: Key, i: nat, hashFuncs: nat)
      requires vData.Length > 0
      reads this`nTweak
    {
      exists n :: 0 <= n < hashFuncs && Hash(n, key) == i
    }

    /** Some of the keys have a bit at i. */
    ghost predicate Among(keys: set<Key>, i: nat)
      requires vData.Length > 0
      reads this`nTweak
    {
      exists k :: k in keys && BitOf(k, i, nHashFuncs)
    }

    /** The bits set are those of the keys inserted, and no other. */
    ghost predicate Exact()
      reads this, vData
    {
      && !isFull && (isEmpty <==> inserted == {})
      && forall i :: 0 <= i < vData.Length * 8 ==> (Bit(i) <==> Among(inserted, i))
    }

    lemma AmongMore(keys: set<Key>, key: Key, i: nat)
      requires vData.Length > 0
      ensures Among(keys + {key}, i) <==> Among(keys, i) || BitOf(key, i, nHashFuncs)
    {
    }

    /** Sets the bits of the key, and no other. */
    method Insert(key: Key)
      requires Valid()
      modifies this`isEmpty, this`inserted, vData
      ensures Valid() && inserted == old(inserted) + {key} && isFull == old(isFull)
      ensures isEmpty <==> isFull && old(isEmpty)
      ensures old(Exact()) ==> Exact()
      ensures forall k :: 0 <= k < vData.Length * 8 ==>
                (Bit(k) <==> old(Bit(k)) || (!isFull && BitOf(key, k, nHashFuncs)))
    {
      if isFull {
        assert Marked(key);
        inserted := inserted + {key};
        return;
      }
      SetBits(key);
      isEmpty := false;
      inserted := inserted + {key};
      forall k | k in inserted
        ensures Marked(k)
      {
        if k != key { assert k in old(inserted) && old(Marked(k)); }
      }
      if old(Exact()) {
        forall i | 0 <= i < vData.Length * 8
          ensures Bit(i) <==> Among(inserted, i)
        {
          assert old(Bit(i)) <==> Among(old(inserted), i);
          AmongMore(old(inserted), key, i);
        }
      }
    }

    method SetBits(key: Key)
      requires nHashFuncs > 0 ==> vData.Length > 0
      modifies vData
      ensures forall k :: 0 <= k < vData.Length * 8 ==> (Bit(k) <==> old(Bit(k)) || BitOf(key, k, nHashFuncs))
    {
      for i := 0 to nHashFuncs
        invariant forall k :: 0 <= k < vData.Length * 8 ==> (Bit(k) <==> old(Bit(k)) || BitOf(key, k, i))
      {
        var nIndex := Hash(i, key);
        label Before:
        SetBit(nIndex);
        forall k | 0 <= k < vData.Length * 8
          ensures Bit(k) <==> old(Bit(k)) || BitOf(key, k, i + 1)
        {
          NextBit(key, k, i);
          assert old@Before(Bit(k)) <==> old(Bit(k)) || BitOf(key, k, i);
        }
      }
    }

    lemma NextBit(key: Key, k: nat, i: nat)
      requires vData.Length > 0
      ensures BitOf(key, k, i + 1) <==> Hash(i, key) == k || BitOf(key, k, i)
    {
    }

    method SetBit(nIndex: nat)
      requires nIndex < vData.Length * 8
      modifies vData
      ensures forall k :: 0 <= k < vData.Length * 8 ==> (Bit(k) <==> k == nIndex || old(Bit(k)))
    {
      vData[nIndex / 8] := vData[nIndex / 8] | Mask(nIndex % 8);
      forall k | 0 <= k < vData.Length * 8
        ensures Bit(k) <==> k == nIndex || old(Bit(k))
      {
        MaskBits(old(vData[nIndex / 8]), nIndex % 8, k % 8);
      }
    }

    method Contains(key: Key) returns (r: bool)
      requires Valid()
      ensures r <==> isFull || (!isEmpty && (vData.Length > 0 ==> forall n :: 0 <= n < nHashFuncs ==>
                       vData[Hash(n, key) / 8] & Mask(Hash(n, key) % 8) != 0))
      ensures key in inserted ==> r
      ensures Exact() ==> (r <==> MadeUp(key, inserted))
    {
      if Exact() { MatchesExact(key); }
      if isFull { return true; }
      if isEmpty { return false; }
      for i := 0 to nHashFuncs
        invariant vData.Length > 0 ==> forall n :: 0 <= n < i ==> Bit(Hash(n, key))
      {
        var nIndex := Hash(i, key);
        if vData[nIndex / 8] & Mask(nIndex % 8) == 0 {
          assert !Bit(nIndex);
          return false;
        }
      }
      r := true;
    }

    /** Every bit of a key is a bit of some of the keys. */
    ghost predicate MadeUp(key: Key, keys: set<Key>)
      reads this`nTweak
    {
      keys != {} && (vData.Length > 0 ==> forall n :: 0 <= n < nHashFuncs ==> Among(keys, Hash(n, key)))
    }

    lemma MatchesExact(key: Key)
      requires Exact()
      ensures Matches(key) <==> MadeUp(key, inserted)
    {
    }

    /** Nothing is known any more. A filter without bytes is no longer full then, and if it has hash
        functions it must not be used again: they divide by its size. */
    method Clear()
      modifies this`isFull, this`isEmpty, this`inserted, vData
      ensures inserted == {} && !isFull && isEmpty
      ensures Valid() <==> (nHashFuncs > 0 ==> vData.Length > 0)
      ensures forall i :: 0 <= i < vData.Length ==> vData[i] == 0
      ensures Exact()
    {
      for i := 0 to vData.Length
        invariant forall j :: 0 <= j < i ==> vData[j] == 0
      {
        vData[i] := 0;
      }
      isFull, isEmpty, inserted := false, true, {};
    }

    method Reset(nNewTweak: nat)
      modifies this, vData
      ensures inserted == {} && nTweak == nNewTweak && !isFull && isEmpty
      ensures Valid() <==> (nHashFuncs > 0 ==> vData.Length > 0)
      ensures forall i :: 0 <= i < vData.Length ==> vData[i] == 0
      ensures Exact()
    {
      Clear();
      nTweak := nNewTweak;
    }

    /** Recompute the two flags from the bits. Nothing inserted is lost if there is a hash function
        or no byte at all; without a hash function, a filter of zero bytes is taken for empty. */
    method UpdateEmptyFull()
      requires AllMarked()
      modifies this`isFull, this`isEmpty
      ensures isFull <==> forall i :: 0 <= i < vData.Length ==> vData[i] == 0xff
      ensures isEmpty <==> forall i :: 0 <= i < vData.Length ==> vData[i] == 0
      ensures (forall k :: k in inserted ==> Matches(k)) <==> inserted == {} || isFull || !isEmpty
      ensures nHashFuncs > 0 || vData.Length == 0 ==> Valid()
    {
      var full, empty := true, true;
      for i := 0 to vData.Length
        invariant full <==> forall k :: 0 <= k < i ==> vData[k] == 0xff
        invariant empty <==> forall k :: 0 <= k < i ==> vData[k] == 0
      {
        full := full && vData[i] == 0xff;
        empty := empty && vData[i] == 0;
      }
      isFull := full;
      isEmpty := empty;
      FlagsTrue();
      if inserted != {} { var k :| k in inserted; assert Marked(k); }
    }

    lemma FlagsTrue()
      requires AllMarked()
      ensures (forall i :: 0 <= i < vData.Length ==> vData[i] == 0xff) ==>
                forall i :: 0 <= i < vData.Length * 8 ==> Bit(i)
      ensures (forall i :: 0 <= i < vData.Length ==> vData[i] == 0) && nHashFuncs > 0 && vData.Length > 0 ==>
              inserted == {}
    {
      forall i | 0 <= i < vData.Length * 8
        ensures vData[i / 8] == 0xff ==> Bit(i)
        ensures vData[i / 8] == 0 ==> !Bit(i)
      {
        AllBits(vData[i / 8]);
      }
      if nHashFuncs > 0 && vData.Length > 0 && inserted != {} {
        var k :| k in inserted;
        assert Marked(k);
        assert Bit(Hash(0, k));
        assert vData[Hash(0, k) / 8] != 0;
      }
    }
  }

  // ---- the rolling filter ----

  /** The last n of a history, or all of it. */
  function LastOf(h: seq<Key>, n: nat): (r: seq<Key>) { if |h| <= n then h else h[|h| - n..] }

  function KeysOf(h: seq<Key>): set<Key> { set k | k in h }

  lemma {:induction false} OneMoreKey(h: seq<Key>, n: nat, key: Key)
    ensures KeysOf(LastOf(h + [key], n + 1)) == KeysOf(LastOf(h, n)) + {key}
  {
    assert LastOf(h + [key], n + 1) == LastOf(h, n) + [key];
  }

  /** The keys known are the last n, or all of them. */
  ghost predicate Knows(keys: set<Key>, h: seq<Key>, n: nat) { keys == KeysOf(LastOf(h, n)) }

  lemma {:induction false} KnowsNext(keys: set<Key>, h: seq<Key>, n: nat, key: Key)
    requires Knows(keys, h, n)
    ensures Knows(keys + {key}, h + [key], n + 1)
  {
    OneMoreKey(h, n, key);
  }

  lemma {:induction false} KnowsOne(h: seq<Key>, key: Key)
    ensures Knows({key}, h + [key], 1)
  {
    OneMoreKey(h, 0, key);
    assert KeysOf(LastOf(h, 0)) + {key} == {key};
  }

  /** How many of the last keys the two filters know after n insertions since the first was cleared last. */
  function FirstKnows(n: nat, half: nat): nat { if n == 0 then 2 * half else n }

  function SecondKnows(n: nat, half: nat): nat { if n <= half then half + n else n - half }

  ghost predicate Staggered(k1: set<Key>, k2: set<Key>, h: seq<Key>, n: nat, half: nat) {
    Knows(k1, h, FirstKnows(n, half)) && Knows(k2, h, SecondKnows(n, half))
  }

  lemma {:induction false} NextStaggered(k1: set<Key>, k2: set<Key>, h: seq<Key>, n: nat, half: nat, key: Key,
                                         l1: set<Key>, l2: set<Key>, m: nat)
    requires Staggered(k1, k2, h, n, half) && n < 2 * half && m == if n + 1 == 2 * half then 0 else n + 1
    requires l1 == (if n == 0 then {} else k1) + {key} && l2 == (if n == half then {} else k2) + {key}
    ensures Staggered(l1, l2, h + [key], m, half)
  {
    if n == 0 { NextKnown(l1, h, key); } else { KnowsNext(k1, h, n, key); }
    if n == half { NextKnown(l2, h, key); } else { KnowsNext(k2, h, SecondKnows(n, half), key); }
  }

  lemma {:induction false} NextKnown(keys: set<Key>, h: seq<Key>, key: Key)
    requires keys == {} + {key}
    ensures Knows(keys, h + [key], 1)
  {
    assert keys == {key};
    KnowsOne(h, key);
  }

  lemma {:induction false} Suffix(s: seq<Key>, t: seq<Key>, d: nat)
    requires d <= |t| && s == t[d..]
    ensures KeysOf(s) <= KeysOf(t)
  {
    forall k | k in s
      ensures k in t
    {
      var j :| 0 <= j < |s| && s[j] == k;
      assert t[d + j] == k;
    }
  }

  lemma {:induction false} LastFew(h: seq<Key>, n: nat, more: nat)
    requires 0 < n <= more
    ensures KeysOf(LastOf(h, n)) <= KeysOf(LastOf(h, more))
    ensures KeysOf(LastOf(h, more)) == {} <==> h == []
  {
    var s, t := LastOf(h, n), LastOf(h, more);
    assert s == t[|t| - |s|..];
    Suffix(s, t, |t| - |s|);
    if h != [] { assert t[0] in KeysOf(t); }
  }

  class CRollingBloomFilter {
    const nBloomSize: nat
    var nInsertions: nat
    const b1: CBloomFilter
    const b2: CBloomFilter
    ghost var history: seq<Key>

    /** Two filters, that have bytes if they have hash functions. */
    ghost predicate Two()
      reads b1, b2
    {
      && b1 != b2 && b1.vData != b2.vData
      && (b1.nHashFuncs > 0 ==> b1.vData.Length > 0) && (b2.nHashFuncs > 0 ==> b2.vData.Length > 0)
    }

    /** The first filter is cleared when nInsertions starts anew and knows what came since, the second half
        way through. */
    ghost predicate Valid()
      reads this, b1, b1.vData, b2, b2.vData
    {
      var n := nBloomSize / 2;
      && Two() && b1.nTweak == b2.nTweak && b1.Valid() && b2.Valid() && b1.Exact() && b2.Exact()
      && nBloomSize == 2 * n && 0 < n && nInsertions < nBloomSize
      && Staggered(b1.inserted, b2.inserted, history, nInsertions, n)
    }

    constructor (nElements: nat, size: nat, hashFuncs: nat, hash: (nat, Key) -> nat, nNewTweak: nat)
      requires nElements >= 1 && (hashFuncs > 0 ==> size > 0)
      ensures Valid() && history == [] && nInsertions == 0 && nBloomSize == 2 * nElements && b1.nTweak == nNewTweak
      ensures b1.vData.Length == size && b1.nHashFuncs == hashFuncs && b1.murmur == hash
    {
      b1 := new CBloomFilter(size, hashFuncs, hash, 0, true);
      b2 := new CBloomFilter(size, hashFuncs, hash, 0, true);
      nInsertions := 0;
      nBloomSize := nElements * 2;
      history := [];
      new;
      Reset(nNewTweak);
    }

    method Insert(key: Key)
      requires Valid()
      modifies this`nInsertions, this`history, b1, b1.vData, b2, b2.vData
      ensures Valid() && history == old(history) + [key] && b1.nTweak == old(b1.nTweak)
      ensures nInsertions == if old(nInsertions) + 1 == nBloomSize then 0 else old(nInsertions) + 1
    {
      ghost var k1, k2, n := b1.inserted, b2.inserted, nInsertions;
      ClearOne();
      InsertBoth(key);
      nInsertions := nInsertions + 1;
      if nInsertions == nBloomSize { nInsertions := 0; }
      NextStaggered(k1, k2, history, n, nBloomSize / 2, key, b1.inserted, b2.inserted, nInsertions);
      history := history + [key];
    }

    method InsertBoth(key: Key)
      requires Two() && b1.Valid() && b1.Exact() && b2.Valid() && b2.Exact()
      modifies b1, b1.vData, b2, b2.vData
      ensures Two() && b1.nTweak == old(b1.nTweak) && b2.nTweak == old(b2.nTweak)
      ensures b1.Valid() && b1.Exact() && b1.inserted == old(b1.inserted) + {key}
      ensures b2.Valid() && b2.Exact() && b2.inserted == old(b2.inserted) + {key}
    {
      b1.Insert(key);
      b2.Insert(key);
    }

    method ClearOne()
      requires Valid()
      modifies b1, b1.vData, b2, b2.vData
      ensures Two() && b1.nTweak == b2.nTweak == old(b1.nTweak)
      ensures b1.Valid() && b1.Exact() && b1.inserted == if nInsertions == 0 then {} else old(b1.inserted)
      ensures b2.Valid() && b2.Exact() && b2.inserted == if nInsertions == nBloomSize / 2 then {} else old(b2.inserted)
    {
      if nInsertions == 0 {
        b1.Clear();
      } else if nInsertions == nBloomSize / 2 {
        b2.Clear();
      }
    }

    /** Every one of the last nElements keys is found; another is exactly if every bit of it is a bit of one
        of the last keys, of which nElements or up to twice as many count. */
    method Contains(key: Key) returns (r: bool)
      requires Valid()
      ensures key in LastOf(history, nBloomSize / 2) ==> r
      ensures var asked := if nInsertions < nBloomSize / 2 then b2 else b1;
              var n := if nInsertions < nBloomSize / 2 then nBloomSize / 2 + nInsertions else nInsertions;
              r <==> asked.MadeUp(key, KeysOf(LastOf(history, n)))
    {
      if nInsertions < nBloomSize / 2 {
        r := b2.Contains(key);
        LastFew(history, nBloomSize / 2, nBloomSize / 2 + nInsertions);
      } else {
        r := b1.Contains(key);
        LastFew(history, nBloomSize / 2, nInsertions);
      }
    }

    method Reset(nNewTweak: nat)
      requires Two() && nBloomSize > 0 && nBloomSize % 2 == 0
      modifies this`nInsertions, this`history, b1, b1.vData, b2, b2.vData
      ensures Valid() && history == [] && nInsertions == 0 && b1.nTweak == nNewTweak
    {
      b1.Reset(nNewTweak);
      b2.Reset(nNewTweak);
      nInsertions := 0;
      history := [];
    }
  }
}
