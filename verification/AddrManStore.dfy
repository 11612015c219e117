/** Writing the address manager to a file and filling a new one from it, in place. */
module AddrManStore {
  import opened AddrManSpec
  import opened AddrManFile
  import opened AddrManLoad
  import opened AddrManOutcome
  import opened AddrManRestore
  import opened AddrMan

  // ---------------------------------------------------------------- writing

  method Serialize(a: CAddrMan) returns (f: File)
    requires a.Valid()
    ensures f == Dump(a.Abs())
  {
    CountersHold(a.h, a.Abs());
    var news, unkIds := WriteNew(a);
    var tried := WriteTried(a);
    AllIndexesKnown(a.h, a.Abs(), unkIds);
    var buckets: seq<seq<int>> := [];
    for bucket := 0 to NEW_BUCKET_COUNT
      invariant buckets == BucketLists(a.mapInfo, a.news, bucket, BUCKET_SIZE)
    {
      var list := WriteBucket(a, unkIds, bucket);
      buckets := buckets + [list];
    }
    f := File(1, 32, a.nKey, a.nNew, a.nTried, FlipMark(NEW_BUCKET_COUNT), news, tried, buckets);
  }

  /** An entry still to be written keeps the count of those written below the counter. */
  predicate CounterHolds(m: map<int, AddrInfo>, tried: bool, ids: int, count: int) {
    forall n: nat :: n < ids && n in m && Kept(m[n], tried) ==> |IdList(m, tried, n)| < count
  }

  lemma CountersHold(h: Env, s: State)
    requires Inv(h, s)
    ensures s.nIdCount >= 0 && CounterHolds(s.mapInfo, false, s.nIdCount, s.nNew)
    ensures CounterHolds(s.mapInfo, true, s.nIdCount, s.nTried)
  {
    SameCounters(h, s);
    forall n: nat, tried: bool | n < s.nIdCount && n in s.mapInfo && Kept(s.mapInfo[n], tried)
      ensures |IdList(s.mapInfo, tried, n)| < |IdList(s.mapInfo, tried, s.nIdCount)|
    {
      ListsAll(s.mapInfo, tried, s.nIdCount, n);
    }
  }

  /** The entries with a reference, in the order of the id map, and the index of every id. */
  method WriteNew(a: CAddrMan) returns (es: seq<Entry>, unkIds: map<int, int>)
    requires a.nIdCount >= 0 && CounterHolds(a.mapInfo, false, a.nIdCount, a.nNew)
    ensures es == Entries(a.mapInfo, IdList(a.mapInfo, false, a.nIdCount))
    ensures forall n :: n in a.mapInfo && 0 <= n < a.nIdCount ==> n in unkIds && unkIds[n] == Index(a.mapInfo, n)
  {
    es, unkIds := [], map[];
    for n := 0 to a.nIdCount
      invariant es == Entries(a.mapInfo, IdList(a.mapInfo, false, n))
      invariant forall k :: k in a.mapInfo && 0 <= k < n ==> k in unkIds && unkIds[k] == Index(a.mapInfo, k)
    {
      if n in a.mapInfo {
        unkIds := unkIds[n := |es|];
        if a.mapInfo[n].nRefCount != 0 {
          assert |es| != a.nNew;
          es := es + [Written(a.mapInfo[n])];
        }
      }
      EntriesNext(a.mapInfo, false, n);
    }
  }

  lemma EntriesNext(m: map<int, AddrInfo>, tried: bool, n: nat)
    ensures Entries(m, IdList(m, tried, n + 1)) ==
            Entries(m, IdList(m, tried, n)) + if n in m && Kept(m[n], tried) then [Written(m[n])] else []
  {
  }

  method WriteTried(a: CAddrMan) returns (es: seq<Entry>)
    requires a.nIdCount >= 0 && CounterHolds(a.mapInfo, true, a.nIdCount, a.nTried)
    ensures es == Entries(a.mapInfo, IdList(a.mapInfo, true, a.nIdCount))
  {
    es := [];
    for n := 0 to a.nIdCount
      invariant es == Entries(a.mapInfo, IdList(a.mapInfo, true, n))
    {
      if n in a.mapInfo && a.mapInfo[n].fInTried {
        assert |es| != a.nTried;
        es := es + [Written(a.mapInfo[n])];
      }
      EntriesNext(a.mapInfo, true, n);
    }
  }

  predicate IndexKnown(m: map<int, AddrInfo>, news: Table, unkIds: map<int, int>, slot: Slot)
    requires slot in news
  {
    news[slot] in unkIds && unkIds[news[slot]] == Index(m, news[slot])
  }

  ghost predicate IndexesKnown(m: map<int, AddrInfo>, news: Table, unkIds: map<int, int>) {
    forall slot {:trigger IndexKnown(m, news, unkIds, slot)} :: slot in news ==> IndexKnown(m, news, unkIds, slot)
  }

  lemma AllIndexesKnown(h: Env, s: State, unkIds: map<int, int>)
    requires Inv(h, s)
    requires forall n :: n in s.mapInfo && 0 <= n < s.nIdCount ==> n in unkIds && unkIds[n] == Index(s.mapInfo, n)
    ensures IndexesKnown(s.mapInfo, s.news, unkIds)
  {
    forall slot | slot in s.news
      ensures IndexKnown(s.mapInfo, s.news, unkIds, slot)
    {
      assert NewSlotOk(h, s.nKey, s.mapInfo, s.news, slot);
      var n := s.news[slot];
      assert n in s.mapInfo && 0 <= n < s.nIdCount;
    }
  }

  method WriteBucket(a: CAddrMan, unkIds: map<int, int>, bucket: nat) returns (list: seq<int>)
    requires a.Shape() && bucket < NEW_BUCKET_COUNT && IndexesKnown(a.mapInfo, a.news, unkIds)
    ensures list == BucketList(a.mapInfo, a.news, bucket, BUCKET_SIZE)
  {
    list := [];
    for i := 0 to BUCKET_SIZE
      invariant list == BucketList(a.mapInfo, a.news, bucket, i)
    {
      BucketListNext(a.mapInfo, a.news, bucket, i);
      if a.vvNew[bucket, i] != -1 {
        assert IndexKnown(a.mapInfo, a.news, unkIds, Slot(bucket, i));
        list := list + [unkIds[a.vvNew[bucket, i]]];
      }
    }
  }

  lemma BucketListNext(m: map<int, AddrInfo>, news: Table, bucket: nat, i: nat)
    ensures BucketList(m, news, bucket, i + 1) ==
            if Slot(bucket, i) in news then BucketList(m, news, bucket, i) + [Index(m, news[Slot(bucket, i)])]
            else BucketList(m, news, bucket, i)
  {
  }

  // ---------------------------------------------------------------- reading

  /** The state with the counters that are set ahead of the entries they count. */
  function Counted(s: State, nIdCount: int, nNew: int, nTried: int): State {
    s.(nIdCount := nIdCount, nNew := nNew, nTried := nTried)
  }

  /** Enter an entry under an id of its own. */
  method Enter(a: CAddrMan, e: Entry, n: int)
    modifies a`mapInfo, a`mapAddr, a`vRandom
    ensures a.mapInfo == old(a.mapInfo)[n := Entered(e, |old(a.vRandom)|)]
    ensures a.mapAddr == old(a.mapAddr)[e.addr.service.ip := n] && a.vRandom == old(a.vRandom) + [n]
  {
    var info := FreshInfo(e.addr, e.source, -1).(nLastSuccess := e.nLastSuccess, nAttempts := e.nAttempts);
    a.mapAddr := a.mapAddr[e.addr.service.ip := n];
    info := info.(nRandomPos := |a.vRandom|);
    a.mapInfo := a.mapInfo[n := info];
    a.vRandom := a.vRandom + [n];
  }

  method ReadNew(a: CAddrMan, e: Entry, n: int, current: bool)
    requires a.Shape() && n >= 0
    modifies a, a.vvNew
    ensures a.Shape() && a.nIdCount == old(a.nIdCount) && a.nNew == old(a.nNew) && a.nTried == old(a.nTried)
    ensures Counted(a.Abs(), n + 1, n + 1, 0) == LoadNew(a.h, Counted(old(a.Abs()), n, n, 0), e, current)
  {
    ghost var i := LoadNewIs(a.h, Counted(a.Abs(), n, n, 0), e, current);
    Enter(a, e, n);
    if !current {
      var info := a.mapInfo[n];
      var uBucket := GetNewBucket(a.h, a.nKey, e.addr.service, e.source);
      var uPos := GetBucketPosition(a.h, a.nKey, true, uBucket, e.addr.service);
      if a.vvNew[uBucket, uPos] == -1 {
        a.SetNew(uBucket, uPos, n);
        a.mapInfo := a.mapInfo[n := info.(nRefCount := info.nRefCount + 1)];
        Replaced(old(a.mapInfo), n, info, i);
      }
    }
  }

  method ReadTried(a: CAddrMan, e: Entry, lost: nat, ghost nTried: int) returns (nLost: nat)
    requires a.Shape()
    modifies a, a.vvTried
    ensures a.Shape() && a.nNew == old(a.nNew) && a.nTried == old(a.nTried)
    ensures Counted(a.Abs(), a.nIdCount, a.nNew, nTried + 1 - nLost) ==
            LoadTried(a.h, Counted(old(a.Abs()), old(a.nIdCount), old(a.nNew), nTried - lost), e)
  {
    var kBucket := GetTriedBucket(a.h, a.nKey, e.addr.service);
    var kPos := GetBucketPosition(a.h, a.nKey, false, kBucket, e.addr.service);
    nLost := lost;
    if a.vvTried[kBucket, kPos] == -1 {
      ghost var i := LoadTriedIs(a.h, Counted(a.Abs(), a.nIdCount, a.nNew, nTried - lost), e);
      EnterTried(a, e, kBucket, kPos);
    } else {
      nLost := nLost + 1;
    }
  }

  /** The entry in its tried slot, under the next id. */
  method EnterTried(a: CAddrMan, e: Entry, kBucket: nat, kPos: nat)
    requires a.Shape() && kBucket < TRIED_BUCKET_COUNT && kPos < BUCKET_SIZE && a.vvTried[kBucket, kPos] == -1
    modifies a, a.vvTried
    ensures a.Shape()
    ensures var n, slot := old(a.nIdCount), Slot(kBucket, kPos);
            a.Abs() == old(a.Abs()).(
              nIdCount := n + 1, mapInfo := old(a.mapInfo)[n := Entered(e, |old(a.vRandom)|).(fInTried := true)],
              mapAddr := old(a.mapAddr)[e.addr.service.ip := n], vRandom := old(a.vRandom) + [n],
              tried := if n == -1 then old(a.tried) else old(a.tried)[slot := n])
  {
    var n := a.nIdCount;
    Replaced(a.mapInfo, n, Entered(e, |a.vRandom|), Entered(e, |a.vRandom|).(fInTried := true));
    Enter(a, e, n);
    a.mapInfo := a.mapInfo[n := a.mapInfo[n].(fInTried := true)];
    a.SetTried(kBucket, kPos, n);
    a.nIdCount := a.nIdCount + 1;
  }

  method ReadIndex(a: CAddrMan, bucket: nat, index: int, count: nat)
    requires a.Shape() && bucket < NEW_BUCKET_COUNT && FirstNew(a.Abs(), count)
    modifies a, a.vvNew
    ensures a.Shape() && a.Abs() == LoadIndex(a.h, old(a.Abs()), bucket, index, count)
  {
    if 0 <= index < count {
      assert index in a.mapInfo;
      var info := a.mapInfo[index];
      var uPos := GetBucketPosition(a.h, a.nKey, true, bucket, info.addr.service);
      if a.vvNew[bucket, uPos] == -1 && info.nRefCount < NEW_BUCKETS_PER_ADDRESS {
        a.mapInfo := a.mapInfo[index := info.(nRefCount := info.nRefCount + 1)];
        a.SetNew(bucket, uPos, index);
      }
    }
  }

  /** Fills an object whose two maps are empty, as in one that is new, from any stream that holds the
      counts; it may end in or after what f has of it, with `cut` of an entry. A wrong key size raises
      an exception with the tables already cleared; a stream that ends early raises one with what
      had been read left in the object. Otherwise the object is consistent exactly when
      LoadedOutcome says so. */
  method Unserialize(a: CAddrMan, f: File, ends: bool, cut: Entry, randomKey: nat) returns (ok: bool)
    requires a.vvTried.Length0 == TRIED_BUCKET_COUNT && a.vvTried.Length1 == BUCKET_SIZE
    requires a.vvNew.Length0 == NEW_BUCKET_COUNT && a.vvNew.Length1 == BUCKET_SIZE && a.vvTried != a.vvNew
    requires a.mapInfo == map[] && a.mapAddr == map[] && Parsed(f) && (f.nKeySize == 32 && !ends ==> Readable(f))
    modifies a, a.vvTried, a.vvNew
    ensures ok <==> f.nKeySize == 32 && !ends
    ensures ok ==> a.Shape() && Read(Loaded(a.h, f)) && a.Abs() == Pruned(Loaded(a.h, f))
    ensures ok ==> (a.Valid() <==> CountsOk(f) && AddressesOk(a.h, f))
    ensures ok && a.Valid() ==> (R.TimesOk(a.mapInfo) <==> SuccessesOk(a.h, f))
    ensures f.nKeySize != 32 ==> a.Abs() == R.EmptyState(randomKey)
    ensures f.nKeySize == 32 && ends ==> a.Shape() && a.Abs() == Partial(a.h, f, cut)
  {
    a.Clear(randomKey);
    if f.nKeySize != 32 { return false; }
    a.nKey := f.nKey;
    ghost var s, t, e, u := PartialSteps(a.h, f, cut);
    ReadAll(a, f, cut, s, t, e, u);
    if ends { return false; }
    LoadedOutcome(a.h, f);
    PruneAll(a);
    ok := true;
  }

  /** The states that reading goes through: after the new list, after the tried list, with what was lost
      taken off the counter, and after the buckets. */
  ghost predicate Steps(h: Env, f: File, s: State, t: State, e: State, u: State) {
    && s == LoadNews(h, R.EmptyState(f.nKey), f.news, Current(f)) && s.nTried == 0
    && t == LoadTrieds(h, s.(nIdCount := f.nNew, nNew := f.nNew), f.tried)
    && e == t.(nTried := f.nTried - (|f.tried| - t.nTried))
    && u == (if Current(f) then LoadBuckets(h, e, f.buckets, |f.news|) else e)
    && (|f.news| == Turns(f.nNew) ==> FirstNew(e, |f.news|))
  }

  /** What is left of them where a stream ends. */
  function LeftBy(f: File, cut: Entry, s: State, t: State, u: State): State {
    if |f.news| < Turns(f.nNew) then
      s.(nIdCount := 0, nNew := f.nNew, nTried := f.nTried, mapInfo := s.mapInfo[|f.news| := Cut(cut)])
    else if |f.tried| < Turns(f.nTried) then t.(nTried := f.nTried)
    else u
  }

  lemma PartialSteps(h: Env, f: File, cut: Entry) returns (s: State, t: State, e: State, u: State)
    ensures Steps(h, f, s, t, e, u) && Partial(h, f, cut) == LeftBy(f, cut, s, t, u)
  {
    s := LoadNews(h, R.EmptyState(f.nKey), f.news, Current(f));
    t := LoadTrieds(h, s.(nIdCount := f.nNew, nNew := f.nNew), f.tried);
    e, u := LoadEntries(h, f), Loaded(h, f);
    StillNone(h, s, R.EmptyState(f.nKey), f.news, Current(f));
    if |f.news| == Turns(f.nNew) { EntriesFirst(h, f); }
  }

  /** All that a stream holds, up to where it ends. */
  method ReadAll(a: CAddrMan, f: File, cut: Entry, ghost s: State, ghost t: State, ghost e: State, ghost u: State)
    requires a.Shape() && a.Abs() == R.EmptyState(f.nKey) && Parsed(f) && Steps(a.h, f, s, t, e, u)
    modifies a, a.vvTried, a.vvNew
    ensures a.Shape() && a.Abs() == LeftBy(f, cut, s, t, u)
  {
    ReadFirst(a, f, s);
    if |f.news| < Turns(f.nNew) {
      a.mapInfo := a.mapInfo[|f.news| := Cut(cut)];
    } else {
      ReadRest(a, f, s, t, e, u);
    }
  }

  /** The counters and the new list. */
  method ReadFirst(a: CAddrMan, f: File, ghost s: State)
    requires a.Shape() && a.Abs() == R.EmptyState(f.nKey) && s.nTried == 0
    requires s == LoadNews(a.h, R.EmptyState(f.nKey), f.news, Current(f))
    modifies a, a.vvNew
    ensures a.Shape() && a.Abs() == s.(nIdCount := 0, nNew := f.nNew, nTried := f.nTried)
  {
    a.nNew := f.nNew;
    a.nTried := f.nTried;
    assert Counted(a.Abs(), 0, 0, 0) == R.EmptyState(f.nKey);
    ReadNews(a, f.news, Current(f), s);
  }

  /** What follows a complete new list. */
  method ReadRest(a: CAddrMan, f: File, ghost s: State, ghost t: State, ghost e: State, ghost u: State)
    requires a.Shape() && Parsed(f) && |f.news| == Turns(f.nNew) && Steps(a.h, f, s, t, e, u)
    requires a.Abs() == s.(nIdCount := 0, nNew := f.nNew, nTried := f.nTried)
    modifies a, a.vvTried, a.vvNew
    ensures a.Shape() && a.Abs() == if |f.tried| < Turns(f.nTried) then t.(nTried := f.nTried) else u
  {
    var nLost := ReadSecond(a, f, s, t);
    if |f.tried| == Turns(f.nTried) {
      a.nTried := a.nTried - nLost;
      ReadLast(a, f, e, u);
    }
  }

  /** The tried list. */
  method ReadSecond(a: CAddrMan, f: File, ghost s: State, ghost t: State) returns (nLost: int)
    requires a.Shape() && s.nTried == 0 && a.Abs() == s.(nIdCount := 0, nNew := f.nNew, nTried := f.nTried)
    requires t == LoadTrieds(a.h, s.(nIdCount := f.nNew, nNew := f.nNew), f.tried)
    modifies a, a.vvTried
    ensures a.Shape() && a.Abs() == t.(nTried := f.nTried) && nLost == |f.tried| - t.nTried
  {
    a.nIdCount := a.nNew;
    assert Counted(a.Abs(), a.nIdCount, a.nNew, 0) == s.(nIdCount := f.nNew, nNew := f.nNew);
    nLost := ReadTrieds(a, f.tried, t);
  }

  /** The buckets, when all the entries are read. */
  method ReadLast(a: CAddrMan, f: File, ghost e: State, ghost u: State)
    requires a.Shape() && Parsed(f) && FirstNew(e, |f.news|) && a.Abs() == e
    requires u == if Current(f) then LoadBuckets(a.h, e, f.buckets, |f.news|) else e
    modifies a, a.vvNew
    ensures a.Shape() && a.Abs() == u
  {
    if Current(f) { ReadBuckets(a, f, u); }
  }

  lemma StillNone(h: Env, s: State, s0: State, es: seq<Entry>, current: bool)
    requires s == LoadNews(h, s0, es, current) && s0.nIdCount == s0.nNew == s0.nTried == 0
    ensures s.nTried == 0
  {
    LoadNewsCounts(h, s0, es, current);
  }

  lemma LoadNewsNext(h: Env, s: State, es: seq<Entry>, n: nat, current: bool)
    requires n < |es|
    ensures LoadNews(h, s, es[..n + 1], current) == LoadNew(h, LoadNews(h, s, es[..n], current), es[n], current)
  {
    assert es[..n + 1][..n] == es[..n];
  }

  lemma LoadTriedsNext(h: Env, s: State, es: seq<Entry>, n: nat)
    requires n < |es|
    ensures LoadTrieds(h, s, es[..n + 1]) == LoadTried(h, LoadTrieds(h, s, es[..n]), es[n])
  {
    assert es[..n + 1][..n] == es[..n];
  }

  lemma LoadBucketNext(h: Env, s: State, bucket: nat, list: seq<int>, n: nat, count: nat)
    requires n < |list|
    ensures LoadBucket(h, s, bucket, list[..n + 1], count) ==
            LoadIndex(h, LoadBucket(h, s, bucket, list[..n], count), bucket, list[n], count)
  {
    assert list[..n + 1][..n] == list[..n];
  }

  lemma LoadBucketsNext(h: Env, s: State, lists: seq<seq<int>>, n: nat, count: nat)
    requires n < |lists|
    ensures LoadBuckets(h, s, lists[..n + 1], count) ==
            LoadBucket(h, LoadBuckets(h, s, lists[..n], count), n, lists[n], count)
  {
    assert lists[..n + 1][..n] == lists[..n];
  }

  method ReadNews(a: CAddrMan, es: seq<Entry>, current: bool, ghost t: State)
    requires a.Shape() && a.nIdCount == 0 && t == LoadNews(a.h, Counted(a.Abs(), 0, 0, 0), es, current)
    modifies a, a.vvNew
    ensures a.Shape() && a.nIdCount == 0 && a.nNew == old(a.nNew) && a.nTried == old(a.nTried)
    ensures Counted(a.Abs(), |es|, |es|, 0) == t
  {
    ghost var s := Counted(a.Abs(), 0, 0, 0);
    for n := 0 to |es|
      invariant a.Shape() && a.nIdCount == 0 && a.nNew == old(a.nNew) && a.nTried == old(a.nTried)
      invariant Counted(a.Abs(), n, n, 0) == LoadNews(a.h, s, es[..n], current)
    {
      LoadNewsNext(a.h, s, es, n, current);
      ReadNew(a, es[n], n, current);
    }
    assert es[..|es|] == es;
  }

  /** The counter was set to the one in the file; what is lost is to be taken off at the end. */
  method ReadTrieds(a: CAddrMan, es: seq<Entry>, ghost t: State) returns (nLost: int)
    requires a.Shape() && t == LoadTrieds(a.h, Counted(a.Abs(), a.nIdCount, a.nNew, 0), es)
    modifies a, a.vvTried
    ensures a.Shape() && a.Abs() == t.(nTried := old(a.nTried)) && nLost == |es| - t.nTried
  {
    ghost var s := Counted(a.Abs(), a.nIdCount, a.nNew, 0);
    nLost := 0;
    for n := 0 to |es|
      invariant a.Shape() && a.nNew == old(a.nNew) && a.nTried == old(a.nTried) && nLost >= 0
      invariant Counted(a.Abs(), a.nIdCount, a.nNew, n - nLost) == LoadTrieds(a.h, s, es[..n])
    {
      LoadTriedsNext(a.h, s, es, n);
      nLost := ReadTried(a, es[n], nLost, n);
    }
    assert es[..|es|] == es;
  }

  method ReadBuckets(a: CAddrMan, f: File, ghost u: State)
    requires a.Shape() && Current(f) && Parsed(f) && FirstNew(a.Abs(), |f.news|)
    requires u == LoadBuckets(a.h, a.Abs(), f.buckets, |f.news|)
    modifies a, a.vvNew
    ensures a.Shape() && a.Abs() == u
  {
    ghost var s := a.Abs();
    for bucket := 0 to |f.buckets|
      invariant a.Shape() && a.Abs() == LoadBuckets(a.h, s, f.buckets[..bucket], |f.news|)
    {
      LoadBucketsFirst(a.h, s, f.buckets[..bucket], |f.news|);
      LoadBucketsNext(a.h, s, f.buckets, bucket, |f.news|);
      ReadBucket(a, bucket, f.buckets[bucket], |f.news|);
    }
    assert f.buckets[..|f.buckets|] == f.buckets;
  }

  method ReadBucket(a: CAddrMan, bucket: nat, list: seq<int>, count: nat)
    requires a.Shape() && bucket < NEW_BUCKET_COUNT && FirstNew(a.Abs(), count)
    modifies a, a.vvNew
    ensures a.Shape() && a.Abs() == LoadBucket(a.h, old(a.Abs()), bucket, list, count)
  {
    ghost var s := a.Abs();
    for n := 0 to |list|
      invariant a.Shape() && a.Abs() == LoadBucket(a.h, s, bucket, list[..n], count)
    {
      LoadBucketFirst(a.h, s, bucket, list[..n], count);
      LoadBucketNext(a.h, s, bucket, list, n, count);
      ReadIndex(a, bucket, list[n], count);
    }
    assert list[..|list|] == list;
  }

  /** Entries that got no reference are deleted, in the order of the id map.  (No id below 0 is of
      such an entry.) */
  method PruneAll(a: CAddrMan)
    requires a.Shape() && RandomOk(a.mapInfo, a.vRandom)
    modifies a
    ensures a.Shape() && a.Abs() == Pruned(old(a.Abs()))
  {
    ghost var s := a.Abs();
    var last := Turns(a.nIdCount);
    for n := 0 to last
      invariant a.Shape() && RandomOk(a.mapInfo, a.vRandom) && a.Abs() == Prune(s, n)
    {
      PruneStep(s, n);
      PruneAt(a, n);
    }
  }

  lemma PruneStep(s: State, n: nat)
    requires RandomOk(s.mapInfo, s.vRandom)
    ensures Prune(s, n + 1) == PruneOne(Prune(s, n), n)
  {
  }

  method PruneAt(a: CAddrMan, n: int)
    requires a.Shape() && RandomOk(a.mapInfo, a.vRandom)
    modifies a
    ensures a.Shape() && a.Abs() == PruneOne(old(a.Abs()), n) && RandomOk(a.mapInfo, a.vRandom)
  {
    if n in a.mapInfo && !a.mapInfo[n].fInTried && a.mapInfo[n].nRefCount == 0 {
      a.Delete(n);
    }
  }

  /** An entry of which nothing has been read. */
  const NOTHING := Entry(Address(Service(0, 0), 0, 0), 0, 0, 0)

  /** Reading into a new object what was written of s. */
  method Restore(b: CAddrMan, f: File, randomKey: nat, ghost s: State)
    requires Inv(b.h, s) && f == Dump(s)
    requires b.Shape() && b.mapInfo == map[] && b.mapAddr == map[]
    modifies b, b.vvTried, b.vvNew
    ensures b.Valid() && Restored(b.Abs(), s, Order(s))
  {
    ghost var u := Loaded(b.h, f);
    RoundTripAt(b.h, s, f, u);
    var ok := Unserialize(b, f, false, NOTHING, randomKey);
    assert b.Abs() == u;
  }

  /** Written to a file and read into a new object, a manager comes back with the same tables,
      entries and counters under new ids. */
  method SaveAndRestore(a: CAddrMan, b: CAddrMan, randomKey: nat)
    requires a.Valid() && b.Shape() && b.mapInfo == map[] && b.mapAddr == map[] && a.h == b.h
    requires a != b && a.vvNew != b.vvNew && a.vvTried != b.vvTried && a.vvNew != b.vvTried && a.vvTried != b.vvNew
    modifies b, b.vvTried, b.vvNew
    ensures b.Valid() && Restored(b.Abs(), a.Abs(), Order(a.Abs()))
  {
    ghost var s := a.Abs();
    var f := Serialize(a);
    Restore(b, f, randomKey, s);
    assert a.Abs() == s;
  }
}
