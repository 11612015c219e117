/** What becomes of any file that can be read: the tables and counters are consistent unless a
    count is negative, and the address map is right exactly when no entry that is kept shares its
    address with another. (AddrManOutcome tells which are kept from the file.) */
module AddrManLoad {
  import opened AddrManSpec
  import opened AddrManProofs
  import opened AddrManFile

  // ---------------------------------------------------------------- what holds of everything read

  /** The random order is right, ids are below the counter and not negative but for tried entries,
      and an address leads to the last entry that was read for it. */
  ghost predicate Read(s: State) { ReadMaps(s.mapInfo, s.vRandom, s.mapAddr, s.nIdCount) }

  ghost predicate ReadMaps(m: map<int, AddrInfo>, v: seq<int>, a: map<nat, int>, next: int) {
    && RandomOk(m, v)
    && (forall n :: n in m ==> n < next && (m[n].fInTried || 0 <= n))
    && (forall ip :: ip in a ==> a[ip] in m && m[a[ip]].Ip() == ip)
    && (forall n :: n in m ==> m[n].Ip() in a && a[m[n].Ip()] >= n)
  }

  lemma PutRead(m: map<int, AddrInfo>, v: seq<int>, a: map<nat, int>, next: int, i: AddrInfo)
    requires ReadMaps(m, v, a, next) && i.nRandomPos == |v| && (i.fInTried || 0 <= next)
    ensures ReadMaps(m[next := i], v + [next], a[i.Ip() := next], next + 1)
  {
    RandomOkAdd(m, v, next, i);
  }

  lemma SetRead(m: map<int, AddrInfo>, v: seq<int>, a: map<nat, int>, next: int, n: int, i: AddrInfo,
                m': map<int, AddrInfo>)
    requires ReadMaps(m, v, a, next) && n in m && i.Ip() == m[n].Ip() && i.nRandomPos == m[n].nRandomPos
    requires i.fInTried == m[n].fInTried && m' == m[n := i]
    ensures ReadMaps(m', v, a, next)
  {
    R.RandomOkSet(m, v, n, i);
  }

  /** The entry made for what was read. */
  function Entered(e: Entry, pos: int): AddrInfo {
    AddrInfo(e.addr, e.source, e.nLastSuccess, 0, e.nAttempts, 0, false, pos)
  }

  lemma CreatedIs(s: State, e: Entry)
    ensures Created(s, e) == s.(nIdCount := s.nIdCount + 1, mapInfo := s.mapInfo[s.nIdCount := Entered(e, |s.vRandom|)],
                                mapAddr := s.mapAddr[e.addr.service.ip := s.nIdCount],
                                vRandom := s.vRandom + [s.nIdCount])
  {
    Replaced(s.mapInfo, s.nIdCount, FreshInfo(e.addr, e.source, |s.vRandom|), Entered(e, |s.vRandom|));
  }

  lemma Replaced<K, V>(m: map<K, V>, k: K, v: V, w: V)
    ensures m[k := v][k := w] == m[k := w]
  {
  }

  lemma LoadNewRead(h: Env, s: State, e: Entry, current: bool)
    requires Read(s) && s.nIdCount >= 0
    ensures Read(LoadNew(h, s, e, current)) && LoadNew(h, s, e, current).nIdCount >= 0
  {
    var i := LoadNewIs(h, s, e, current);
    PutRead(s.mapInfo, s.vRandom, s.mapAddr, s.nIdCount, i);
  }

  /** All that reading an entry of the new list changes. */
  lemma LoadNewIs(h: Env, s: State, e: Entry, current: bool) returns (i: AddrInfo)
    ensures var slot, n := NewSlot(h, s.nKey, e.addr.service, e.source), s.nIdCount;
            var placed := !current && slot !in s.news;
            && i == Entered(e, |s.vRandom|).(nRefCount := if placed then 1 else 0)
            && LoadNew(h, s, e, current) == s.(
                 nIdCount := n + 1, mapInfo := s.mapInfo[n := i], mapAddr := s.mapAddr[e.addr.service.ip := n],
                 vRandom := s.vRandom + [n], nNew := s.nNew + 1, news := if placed then s.news[slot := n] else s.news)
  {
    CreatedIs(s, e);
    i := Entered(e, |s.vRandom|);
    if !current && NewSlot(h, s.nKey, e.addr.service, e.source) !in s.news {
      Replaced(s.mapInfo, s.nIdCount, i, i.(nRefCount := 1));
      i := i.(nRefCount := 1);
    }
  }

  /** All that reading an entry of the tried list changes. */
  lemma LoadTriedIs(h: Env, s: State, e: Entry) returns (i: AddrInfo)
    requires TriedSlot(h, s.nKey, e.addr.service) !in s.tried
    ensures var slot, n := TriedSlot(h, s.nKey, e.addr.service), s.nIdCount;
            && i == Entered(e, |s.vRandom|).(fInTried := true)
            && LoadTried(h, s, e) == s.(
                 nIdCount := n + 1, mapInfo := s.mapInfo[n := i], mapAddr := s.mapAddr[e.addr.service.ip := n],
                 vRandom := s.vRandom + [n], nTried := s.nTried + 1,
                 tried := if n == -1 then s.tried else s.tried[slot := n])
  {
    CreatedIs(s, e);
    i := Entered(e, |s.vRandom|);
    Replaced(s.mapInfo, s.nIdCount, i, i.(fInTried := true));
    i := i.(fInTried := true);
  }

  /** A reference changes nothing but its count. */
  lemma LoadIndexIs(h: Env, s: State, bucket: nat, index: int, count: nat) returns (m: map<int, AddrInfo>)
    ensures var t := LoadIndex(h, s, bucket, index, count);
            t.mapInfo == m && t.vRandom == s.vRandom && t.mapAddr == s.mapAddr && t.nIdCount == s.nIdCount
    ensures m == s.mapInfo ||
            (index in s.mapInfo &&
             m == s.mapInfo[index := s.mapInfo[index].(nRefCount := s.mapInfo[index].nRefCount + 1)])
  {
    m := LoadIndex(h, s, bucket, index, count).mapInfo;
  }

  lemma LoadTriedRead(h: Env, s: State, e: Entry)
    requires Read(s)
    ensures Read(LoadTried(h, s, e))
  {
    if TriedSlot(h, s.nKey, e.addr.service) !in s.tried {
      var i := LoadTriedIs(h, s, e);
      PutRead(s.mapInfo, s.vRandom, s.mapAddr, s.nIdCount, i);
    }
  }

  lemma LoadIndexRead(h: Env, s: State, bucket: nat, index: int, count: nat)
    requires Read(s)
    ensures Read(LoadIndex(h, s, bucket, index, count))
  {
    var m := LoadIndexIs(h, s, bucket, index, count);
    if m != s.mapInfo {
      var i := s.mapInfo[index];
      SetRead(s.mapInfo, s.vRandom, s.mapAddr, s.nIdCount, index, i.(nRefCount := i.nRefCount + 1), m);
    }
  }

  lemma {:induction false} LoadNewsRead(h: Env, s: State, es: seq<Entry>, current: bool)
    requires Read(s) && s.nIdCount >= 0
    ensures Read(LoadNews(h, s, es, current)) && LoadNews(h, s, es, current).nIdCount >= 0
  {
    if es != [] {
      var n := |es| - 1;
      LoadNewsRead(h, s, es[..n], current);
      LoadNewRead(h, LoadNews(h, s, es[..n], current), es[n], current);
    }
  }

  lemma {:induction false} LoadTriedsRead(h: Env, s: State, es: seq<Entry>)
    requires Read(s)
    ensures Read(LoadTrieds(h, s, es))
  {
    if es != [] {
      var n := |es| - 1;
      LoadTriedsRead(h, s, es[..n]);
      LoadTriedRead(h, LoadTrieds(h, s, es[..n]), es[n]);
    }
  }

  lemma {:induction false} LoadBucketRead(h: Env, s: State, bucket: nat, list: seq<int>, count: nat)
    requires Read(s)
    ensures Read(LoadBucket(h, s, bucket, list, count))
  {
    if list != [] {
      var n := |list| - 1;
      LoadBucketRead(h, s, bucket, list[..n], count);
      LoadIndexRead(h, LoadBucket(h, s, bucket, list[..n], count), bucket, list[n], count);
    }
  }

  lemma {:induction false} LoadBucketsRead(h: Env, s: State, lists: seq<seq<int>>, count: nat)
    requires Read(s)
    ensures Read(LoadBuckets(h, s, lists, count))
  {
    if lists != [] {
      var n := |lists| - 1;
      LoadBucketsRead(h, s, lists[..n], count);
      LoadBucketRead(h, LoadBuckets(h, s, lists[..n], count), n, lists[n], count);
    }
  }

  lemma {:induction false} LoadNewsCounts(h: Env, s: State, es: seq<Entry>, current: bool)
    requires s.nIdCount == s.nNew == 0
    ensures var t := LoadNews(h, s, es, current); t.nIdCount == t.nNew == |es| && t.nTried == s.nTried
  {
    if es != [] { LoadNewsCounts(h, s, es[..|es| - 1], current); }
  }

  /** The entries of the new list, with the counters set to those of the file. */
  function NewsLoaded(h: Env, f: File): State {
    LoadNews(h, R.EmptyState(f.nKey), f.news, Current(f)).(nIdCount := f.nNew, nNew := f.nNew)
  }

  lemma NewsLoadedRead(h: Env, f: File)
    requires |f.news| == Turns(f.nNew)
    ensures Read(NewsLoaded(h, f))
    ensures f.nNew >= 0 ==> NewsLoaded(h, f) == LoadNews(h, R.EmptyState(f.nKey), f.news, Current(f))
  {
    LoadNewsRead(h, R.EmptyState(f.nKey), f.news, Current(f));
    LoadNewsCounts(h, R.EmptyState(f.nKey), f.news, Current(f));
  }

  lemma LoadedRead(h: Env, f: File)
    requires Readable(f)
    ensures Read(LoadEntries(h, f)) && Read(Loaded(h, f))
  {
    NewsLoadedRead(h, f);
    LoadTriedsRead(h, NewsLoaded(h, f), f.tried);
    LoadBucketsRead(h, LoadEntries(h, f), f.buckets, |f.news|);
  }

  // ---------------------------------------------------------------- the tables and counters of what is read

  ghost predicate FirstNew(s: State, count: nat) {
    forall j :: 0 <= j < count ==> j in s.mapInfo && !s.mapInfo[j].fInTried
  }

  /** New entries without a reference. */
  function Unplaced(m: map<int, AddrInfo>): set<int> { set n | n in m && !m[n].fInTried && m[n].nRefCount == 0 }

  /** Tables and counters are consistent, but for new entries still waiting for a reference. */
  ghost predicate Loading(h: Env, s: State) { CoreG(h, s, Unplaced(s.mapInfo), 0) }

  lemma LimboIsUnplaced(h: Env, s: State, limbo: set<int>)
    requires CoreG(h, s, limbo, 0)
    ensures Loading(h, s)
  {
    assert limbo == Unplaced(s.mapInfo) by {
      forall n
        ensures n in limbo <==> n in Unplaced(s.mapInfo)
      {
        if n in limbo { assert n in NewIds(s.mapInfo); }
      }
    }
  }

  lemma CreatedKeeps(h: Env, s: State, e: Entry)
    requires Loading(h, s)
    ensures CoreG(h, Created(s, e), Unplaced(s.mapInfo) + {s.nIdCount}, 1)
    ensures s.nIdCount !in s.mapInfo
  {
    CreateKeepsCore(h, s, e.addr, e.source, Unplaced(s.mapInfo), 0);
    var t := Create(s, e.addr, e.source);
    var i := t.mapInfo[s.nIdCount].(nLastSuccess := e.nLastSuccess, nAttempts := e.nAttempts);
    R.SetInfoKeepsCore(h, t, s.nIdCount, i, Unplaced(s.mapInfo) + {s.nIdCount}, 1);
  }

  lemma LoadNewKeeps(h: Env, s: State, e: Entry, current: bool)
    requires Loading(h, s)
    ensures Loading(h, LoadNew(h, s, e, current))
  {
    CreatedKeeps(h, s, e);
    var t := Created(s, e).(nNew := s.nNew + 1);
    var limbo := Unplaced(s.mapInfo) + {s.nIdCount};
    var slot := NewSlot(h, s.nKey, e.addr.service, e.source);
    assert CoreG(h, t, limbo, 0);
    if current || slot in t.news {
      LimboIsUnplaced(h, t, limbo);
    } else {
      PlaceNewKeepsCore(h, t, s.nIdCount, slot, limbo, 0);
      LimboIsUnplaced(h, PlaceNew(t, s.nIdCount, slot), limbo - {s.nIdCount});
    }
  }

  lemma LoadTriedKeeps(h: Env, s: State, e: Entry)
    requires Loading(h, s)
    ensures Loading(h, LoadTried(h, s, e))
  {
    var slot := TriedSlot(h, s.nKey, e.addr.service);
    if slot !in s.tried {
      var limbo := Unplaced(s.mapInfo) + {s.nIdCount};
      CreatedKeeps(h, s, e);
      PlaceTriedKeepsCore(h, Created(s, e), s.nIdCount, limbo, 1);
      LimboIsUnplaced(h, LoadTried(h, s, e), limbo - {s.nIdCount});
    }
  }

  lemma LoadIndexKeeps(h: Env, s: State, bucket: nat, index: int, count: nat)
    requires Loading(h, s) && FirstNew(s, count) && bucket < NEW_BUCKET_COUNT
    ensures Loading(h, LoadIndex(h, s, bucket, index, count))
  {
    var t := LoadIndex(h, s, bucket, index, count);
    if t != s {
      var slot := NewSlotIn(h, s.nKey, bucket, s.mapInfo[index].addr.service);
      PlaceNewKeepsCore(h, s, index, slot, Unplaced(s.mapInfo), 0);
      LimboIsUnplaced(h, t, Unplaced(s.mapInfo) - {index});
    }
  }

  lemma LoadIndexFirst(h: Env, s: State, bucket: nat, index: int, count: nat)
    requires FirstNew(s, count)
    ensures FirstNew(LoadIndex(h, s, bucket, index, count), count)
  {
  }

  lemma {:induction false} LoadNewsFirst(h: Env, s: State, es: seq<Entry>, current: bool)
    requires s.nIdCount == 0
    ensures FirstNew(LoadNews(h, s, es, current), |es|) && LoadNews(h, s, es, current).nIdCount == |es|
  {
    if es != [] {
      var n := |es| - 1;
      LoadNewsFirst(h, s, es[..n], current);
      LoadNewFirst(h, LoadNews(h, s, es[..n], current), es[n], current, n);
    }
  }

  lemma LoadNewFirst(h: Env, s: State, e: Entry, current: bool, n: nat)
    requires FirstNew(s, n) && s.nIdCount == n
    ensures FirstNew(LoadNew(h, s, e, current), n + 1) && LoadNew(h, s, e, current).nIdCount == n + 1
  {
  }

  lemma {:induction false} LoadTriedsFirst(h: Env, s: State, es: seq<Entry>, count: nat)
    requires FirstNew(s, count) && count <= s.nIdCount
    ensures FirstNew(LoadTrieds(h, s, es), count) && count <= LoadTrieds(h, s, es).nIdCount
  {
    if es != [] { LoadTriedsFirst(h, s, es[..|es| - 1], count); }
  }

  lemma {:induction false} LoadNewsKeeps(h: Env, s: State, es: seq<Entry>, current: bool)
    requires Loading(h, s)
    ensures Loading(h, LoadNews(h, s, es, current))
  {
    if es != [] {
      var n := |es| - 1;
      LoadNewsKeeps(h, s, es[..n], current);
      LoadNewKeeps(h, LoadNews(h, s, es[..n], current), es[n], current);
    }
  }

  lemma {:induction false} LoadTriedsKeeps(h: Env, s: State, es: seq<Entry>)
    requires Loading(h, s)
    ensures Loading(h, LoadTrieds(h, s, es))
  {
    if es != [] {
      var n := |es| - 1;
      LoadTriedsKeeps(h, s, es[..n]);
      LoadTriedKeeps(h, LoadTrieds(h, s, es[..n]), es[n]);
    }
  }

  lemma {:induction false} LoadBucketFirst(h: Env, s: State, bucket: nat, list: seq<int>, count: nat)
    requires FirstNew(s, count)
    ensures FirstNew(LoadBucket(h, s, bucket, list, count), count)
  {
    if list != [] {
      var n := |list| - 1;
      LoadBucketFirst(h, s, bucket, list[..n], count);
      LoadIndexFirst(h, LoadBucket(h, s, bucket, list[..n], count), bucket, list[n], count);
    }
  }

  lemma {:induction false} LoadBucketKeeps(h: Env, s: State, bucket: nat, list: seq<int>, count: nat)
    requires Loading(h, s) && FirstNew(s, count) && bucket < NEW_BUCKET_COUNT
    ensures Loading(h, LoadBucket(h, s, bucket, list, count))
  {
    if list != [] {
      var n := |list| - 1;
      LoadBucketKeeps(h, s, bucket, list[..n], count);
      LoadBucketFirst(h, s, bucket, list[..n], count);
      LoadIndexKeeps(h, LoadBucket(h, s, bucket, list[..n], count), bucket, list[n], count);
    }
  }

  lemma {:induction false} LoadBucketsFirst(h: Env, s: State, lists: seq<seq<int>>, count: nat)
    requires FirstNew(s, count)
    ensures FirstNew(LoadBuckets(h, s, lists, count), count)
  {
    if lists != [] {
      var n := |lists| - 1;
      LoadBucketsFirst(h, s, lists[..n], count);
      LoadBucketFirst(h, LoadBuckets(h, s, lists[..n], count), n, lists[n], count);
    }
  }

  lemma {:induction false} LoadBucketsKeeps(h: Env, s: State, lists: seq<seq<int>>, count: nat)
    requires Loading(h, s) && FirstNew(s, count) && |lists| <= NEW_BUCKET_COUNT
    ensures Loading(h, LoadBuckets(h, s, lists, count))
  {
    if lists != [] {
      var n := |lists| - 1;
      LoadBucketsKeeps(h, s, lists[..n], count);
      LoadBucketsFirst(h, s, lists[..n], count);
      LoadBucketKeeps(h, LoadBuckets(h, s, lists[..n], count), n, lists[n], count);
    }
  }

  /** The entries an index may refer to are all there, and new. */
  lemma EntriesFirst(h: Env, f: File)
    requires |f.news| == Turns(f.nNew)
    ensures FirstNew(LoadEntries(h, f), |f.news|)
  {
    if f.nNew >= 0 {
      LoadNewsFirst(h, R.EmptyState(f.nKey), f.news, Current(f));
      NewsLoadedRead(h, f);
      LoadTriedsFirst(h, NewsLoaded(h, f), f.tried, |f.news|);
    }
  }

  /** With counts that are not negative, tables and counters are consistent all along. */
  lemma LoadingSteps(h: Env, f: File)
    requires Readable(f) && f.nNew >= 0 && f.nTried >= 0
    ensures Loading(h, LoadEntries(h, f)) && Loading(h, Loaded(h, f))
  {
    var s0 := R.EmptyState(f.nKey);
    R.EmptyInv(h, f.nKey);
    LimboIsUnplaced(h, s0, {});
    LoadNewsKeeps(h, s0, f.news, Current(f));
    NewsLoadedRead(h, f);
    LoadTriedsKeeps(h, NewsLoaded(h, f), f.tried);
    EntriesFirst(h, f);
    if Current(f) { LoadBucketsKeeps(h, LoadEntries(h, f), f.buckets, |f.news|); }
  }

  /** A negative count stays in its counter. */
  lemma CountsStay(h: Env, f: File)
    requires Readable(f)
    ensures f.nNew < 0 ==> Loaded(h, f).nNew == f.nNew
    ensures f.nTried < 0 ==> Loaded(h, f).nTried < 0
  {
    LoadNewsCounts(h, R.EmptyState(f.nKey), f.news, Current(f));
    TriedCounts(h, NewsLoaded(h, f), f.tried);
    BucketCounts(h, LoadEntries(h, f), f.buckets, |f.news|);
  }

  lemma {:induction false} TriedCounts(h: Env, s: State, es: seq<Entry>)
    ensures LoadTrieds(h, s, es).nNew == s.nNew && LoadTrieds(h, s, es).nTried <= s.nTried + |es|
  {
    if es != [] { TriedCounts(h, s, es[..|es| - 1]); }
  }

  lemma {:induction false} BucketCounts(h: Env, s: State, lists: seq<seq<int>>, count: nat)
    ensures LoadBuckets(h, s, lists, count).nNew == s.nNew && LoadBuckets(h, s, lists, count).nTried == s.nTried
  {
    if lists != [] {
      var n := |lists| - 1;
      BucketCounts(h, s, lists[..n], count);
      ListCounts(h, LoadBuckets(h, s, lists[..n], count), n, lists[n], count);
    }
  }

  lemma {:induction false} ListCounts(h: Env, s: State, bucket: nat, list: seq<int>, count: nat)
    ensures LoadBucket(h, s, bucket, list, count).nNew == s.nNew &&
            LoadBucket(h, s, bucket, list, count).nTried == s.nTried
  {
    if list != [] { ListCounts(h, s, bucket, list[..|list| - 1], count); }
  }

  // ---------------------------------------------------------------- pruning

  lemma DeleteUnplaced(h: Env, s: State, n: int)
    requires Loading(h, s) && Prunable(s, n)
    ensures Loading(h, Delete(s, n))
  {
    DeleteKeepsCore(h, s, n, Unplaced(s.mapInfo), 0);
    LimboIsUnplaced(h, Delete(s, n), Unplaced(s.mapInfo) - {n});
  }

  lemma {:induction false} PruneKeeps(h: Env, s: State, n: nat)
    requires Loading(h, s)
    ensures Loading(h, Prune(s, n))
  {
    if n > 0 {
      PruneKeeps(h, s, n - 1);
      var t := Prune(s, n - 1);
      if Prunable(t, n - 1) { DeleteUnplaced(h, t, n - 1); }
    }
  }

  /** t is s without the entries that are prunable below n, and without their addresses. */
  ghost predicate PrunedTo(s: State, t: State, n: nat) {
    && (forall k :: k in t.mapInfo <==> k in s.mapInfo && !(0 <= k < n && Prunable(s, k)))
    && (forall k :: k in t.mapInfo ==> t.mapInfo[k] == s.mapInfo[k].(nRandomPos := t.mapInfo[k].nRandomPos))
    && (forall ip :: ip in t.mapAddr <==> ip in s.mapAddr && !PrunedAt(s, n, ip))
    && (forall ip :: ip in t.mapAddr ==> t.mapAddr[ip] == s.mapAddr[ip])
    && t.nKey == s.nKey && t.nIdCount == s.nIdCount && t.nNew <= s.nNew && t.nTried == s.nTried
  }

  ghost predicate PrunedAt(s: State, n: nat, ip: nat) {
    exists k :: 0 <= k < n && Prunable(s, k) && s.mapInfo[k].Ip() == ip
  }

  lemma {:induction false} PruneIs(s: State, n: nat, t: State)
    requires RandomOk(s.mapInfo, s.vRandom) && t == Prune(s, n)
    ensures PrunedTo(s, t, n)
  {
    if n == 0 {
      NothingPruned(s);
    } else {
      PruneIs(s, n - 1, Prune(s, n - 1));
      PruneNext(s, Prune(s, n - 1), n, t);
    }
  }

  lemma NothingPruned(s: State)
    ensures PrunedTo(s, s, 0)
  {
  }

  lemma PruneNext(s: State, t: State, n: nat, u: State)
    requires n > 0 && PrunedTo(s, t, n - 1) && RandomOk(t.mapInfo, t.vRandom) && u == PruneOne(t, n - 1)
    ensures PrunedTo(s, u, n)
  {
    assert Prunable(t, n - 1) <==> Prunable(s, n - 1);
    forall ip
      ensures PrunedAt(s, n, ip) <==> PrunedAt(s, n - 1, ip) || (Prunable(s, n - 1) && s.mapInfo[n - 1].Ip() == ip)
    {
      PrunedMore(s, n - 1, n, ip);
    }
    if Prunable(t, n - 1) {
      DeleteIs(t, n - 1, u);
      PruneDeleted(s, t, u, n - 1, n);
    }
  }

  lemma PrunedMore(s: State, n: nat, n': nat, ip: nat)
    requires n' == n + 1
    ensures PrunedAt(s, n', ip) <==> PrunedAt(s, n, ip) || (Prunable(s, n) && s.mapInfo[n].Ip() == ip)
  {
  }

  lemma DeleteIs(t: State, n: int, u: State)
    requires n in t.mapInfo && RandomOk(t.mapInfo, t.vRandom) && u == Delete(t, n)
    ensures forall k :: k in u.mapInfo <==> k in t.mapInfo && k != n
    ensures forall k :: k in u.mapInfo ==> u.mapInfo[k] == t.mapInfo[k].(nRandomPos := u.mapInfo[k].nRandomPos)
    ensures u.mapAddr == t.mapAddr - {t.mapInfo[n].Ip()}
    ensures u.nKey == t.nKey && u.nIdCount == t.nIdCount && u.nNew == t.nNew - 1 && u.nTried == t.nTried
  {
    SwapRandomSame(t, t.mapInfo[n].nRandomPos, |t.vRandom| - 1);
    var v := DeleteIsDrop(t, n);
    forall k | k in t.mapInfo
      ensures k in v.mapInfo && v.mapInfo[k] == t.mapInfo[k].(nRandomPos := v.mapInfo[k].nRandomPos)
    {
      AddrManProofs.SameEntry(t.mapInfo, v.mapInfo, k);
    }
  }

  lemma PruneDeleted(s: State, t: State, u: State, n: nat, n': nat)
    requires n' == n + 1
    requires PrunedTo(s, t, n) && n in t.mapInfo && Prunable(s, n)
    requires forall k :: k in u.mapInfo <==> k in t.mapInfo && k != n
    requires forall k :: k in u.mapInfo ==> u.mapInfo[k] == t.mapInfo[k].(nRandomPos := u.mapInfo[k].nRandomPos)
    requires u.mapAddr == t.mapAddr - {t.mapInfo[n].Ip()}
    requires u.nKey == t.nKey && u.nIdCount == t.nIdCount && u.nNew == t.nNew - 1 && u.nTried == t.nTried
    requires forall ip :: PrunedAt(s, n', ip) <==> PrunedAt(s, n, ip) || s.mapInfo[n].Ip() == ip
    ensures PrunedTo(s, u, n')
  {
  }

  // ---------------------------------------------------------------- consistency of what is read

  /** An entry that is kept shares its address with no other entry that was read, kept or not. */
  ghost predicate Apart(s: State) {
    forall n, k :: n in s.mapInfo && k in s.mapInfo && n != k && !Prunable(s, n) ==>
      s.mapInfo[n].Ip() != s.mapInfo[k].Ip()
  }

  /** After pruning, the address map is right exactly then. */
  lemma AddressesIff(s: State, t: State)
    requires Read(s) && PrunedTo(s, t, Turns(s.nIdCount))
    ensures AddrOk(t.mapInfo, t.mapAddr) <==> Apart(s)
  {
    if Apart(s) { ApartIsRight(s, t); }
    if AddrOk(t.mapInfo, t.mapAddr) { RightIsApart(s, t); }
  }

  lemma ApartIsRight(s: State, t: State)
    requires Read(s) && PrunedTo(s, t, Turns(s.nIdCount)) && Apart(s)
    ensures AddrOk(t.mapInfo, t.mapAddr)
  {
    forall n | n in t.mapInfo
      ensures t.mapInfo[n].Ip() in t.mapAddr && t.mapAddr[t.mapInfo[n].Ip()] == n
    {
      var ip := s.mapInfo[n].Ip();
      assert !Prunable(s, n) && s.mapAddr[ip] == n;
      assert !PrunedAt(s, Turns(s.nIdCount), ip);
    }
    forall ip | ip in t.mapAddr
      ensures t.mapAddr[ip] in t.mapInfo && t.mapInfo[t.mapAddr[ip]].Ip() == ip
    {
      var k := s.mapAddr[ip];
      assert k in s.mapInfo && s.mapInfo[k].Ip() == ip && !Prunable(s, k);
    }
  }

  lemma RightIsApart(s: State, t: State)
    requires Read(s) && PrunedTo(s, t, Turns(s.nIdCount))
    requires AddrOk(t.mapInfo, t.mapAddr)
    ensures Apart(s)
  {
    forall n, k | n in s.mapInfo && k in s.mapInfo && n != k && !Prunable(s, n)
      ensures s.mapInfo[n].Ip() != s.mapInfo[k].Ip()
    {
      var ip := s.mapInfo[n].Ip();
      assert n in t.mapInfo && ip in t.mapAddr && t.mapAddr[ip] == n;
      assert !PrunedAt(s, Turns(s.nIdCount), ip);
      if !Prunable(s, k) { assert k in t.mapInfo && t.mapAddr[t.mapInfo[k].Ip()] == k; }
    }
  }

  /** Whether the manager read from a file is consistent: exactly when its counts are not negative
      and no entry that is kept shares its address. */
  lemma LoadedApart(h: Env, f: File)
    requires Readable(f)
    ensures Read(Loaded(h, f)) && forall k :: !Prunable(Pruned(Loaded(h, f)), k)
    ensures Inv(h, Pruned(Loaded(h, f))) <==> f.nNew >= 0 && f.nTried >= 0 && Apart(Loaded(h, f))
  {
    var s := Loaded(h, f);
    LoadedRead(h, f);
    var t := Pruned(s);
    PruneIs(s, Turns(s.nIdCount), t);
    if f.nNew >= 0 && f.nTried >= 0 {
      LoadingSteps(h, f);
      AddressesIff(s, t);
      PrunedCore(h, s);
    } else {
      CountsStay(h, f);
    }
  }

  /** Tables and counters are consistent once the entries without a reference are gone. */
  lemma PrunedCore(h: Env, s: State)
    requires Loading(h, s)
    ensures CoreG(h, Pruned(s), {}, 0)
  {
    var t := Pruned(s);
    PruneKeeps(h, s, Turns(s.nIdCount));
    PruneIs(s, Turns(s.nIdCount), t);
    forall k
      ensures k !in Unplaced(t.mapInfo)
    {
    }
    assert Unplaced(t.mapInfo) == {};
  }
}
