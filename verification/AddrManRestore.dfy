/** Reading what was written gives the same manager back under new ids. */
module AddrManRestore {
  import opened AddrManSpec
  import opened AddrManFile
  import opened AddrManLoad
  import opened AddrManOutcome
  import P = AddrManProofs
  import Sets

  // ---------------------------------------------------------------- reading what was written

  /** The ids in the order in which their entries are written; reading numbers them along it. */
  function Order(s: State): (r: seq<int>)
    requires 0 <= s.nIdCount
  {
    IdList(s.mapInfo, false, s.nIdCount) + IdList(s.mapInfo, true, s.nIdCount)
  }

  /** Every entry is in one of the lists, at the place its index says. */
  lemma {:induction false} ListsAll(m: map<int, AddrInfo>, tried: bool, n: nat, id: int)
    requires 0 <= id < n && id in m && Kept(m[id], tried)
    ensures |IdList(m, tried, id)| < |IdList(m, tried, n)| && IdList(m, tried, n)[|IdList(m, tried, id)|] == id
  {
    if id < n - 1 { ListsAll(m, tried, n - 1, id); }
  }

  /** The same entry, but for what is not written. */
  predicate SameEntry(i: AddrInfo, j: AddrInfo) {
    Written(i) == Written(j) && i.fInTried == j.fInTried && i.nLastTry == 0
  }

  ghost predicate Mirrors(u: State, m: map<int, AddrInfo>, ids: seq<int>) {
    && u.nIdCount == |ids|
    && (forall n :: n in u.mapInfo <==> 0 <= n < |ids|)
    && (forall j :: 0 <= j < |ids| ==> ids[j] in m && SameEntry(u.mapInfo[j], m[ids[j]]))
  }

  lemma EntriesPrefix(m: map<int, AddrInfo>, ids: seq<int>, n: nat)
    requires (forall j :: 0 <= j < |ids| ==> ids[j] in m) && n <= |ids|
    ensures Entries(m, ids)[..n] == Entries(m, ids[..n])
  {
  }

  lemma {:induction false} NewsMirror(h: Env, key: nat, m: map<int, AddrInfo>, ids: seq<int>)
    requires forall j :: 0 <= j < |ids| ==> ids[j] in m && !m[ids[j]].fInTried
    ensures var t := LoadNews(h, R.EmptyState(key), Entries(m, ids), true);
            && Mirrors(t, m, ids)
            && t.nKey == key && t.nNew == |ids| && t.nTried == 0 && t.news == map[] && t.tried == map[]
  {
    if ids != [] {
      var n := |ids| - 1;
      EntriesPrefix(m, ids, n);
      NewsMirror(h, key, m, ids[..n]);
      AddMirror(LoadNews(h, R.EmptyState(key), Entries(m, ids[..n]), true), m, ids[..n], ids[n], false);
      assert ids == ids[..n] + [ids[n]];
    }
  }

  /** Reading one more entry. */
  lemma AddMirror(u: State, m: map<int, AddrInfo>, ids: seq<int>, id: int, tried: bool)
    requires Mirrors(u, m, ids) && id in m && m[id].fInTried == tried
    ensures var t := Created(u, Written(m[id]));
            Mirrors(SetInfo(t, |ids|, t.mapInfo[|ids|].(fInTried := tried)), m, ids + [id])
    ensures !tried ==> Mirrors(Created(u, Written(m[id])), m, ids + [id])
  {
  }

  /** The tried slots that are filled, and with what. */
  ghost predicate TriedFrom(h: Env, u: State, m: map<int, AddrInfo>, ids: seq<int>, from: nat) {
    forall slot :: slot in u.tried ==>
      from <= u.tried[slot] < |ids| && ids[u.tried[slot]] in m &&
      slot == TriedSlot(h, u.nKey, m[ids[u.tried[slot]]].addr.service)
  }

  predicate Differ(ids: seq<int>, j: nat, k: nat)
    requires j < k < |ids|
  {
    ids[j] != ids[k]
  }

  ghost predicate AllDiffer(ids: seq<int>) {
    forall j: nat, k: nat {:trigger Differ(ids, j, k)} :: j < k < |ids| ==> Differ(ids, j, k)
  }

  lemma PrefixDiffers(ids: seq<int>, n: nat)
    requires AllDiffer(ids) && n <= |ids|
    ensures AllDiffer(ids[..n])
  {
    forall j: nat, k: nat | j < k < n ensures Differ(ids[..n], j, k) { assert Differ(ids, j, k); }
  }

  lemma {:induction false} TriedsMirror(h: Env, s: State, s1: State, a: seq<int>, ids: seq<int>, u: State)
    requires TriedOk(h, s.nKey, s.mapInfo, s.tried) && Mirrors(s1, s.mapInfo, a) && s1.tried == map[] &&
             s1.nKey == s.nKey
    requires forall j :: 0 <= j < |ids| ==> ids[j] in s.mapInfo && s.mapInfo[ids[j]].fInTried
    requires AllDiffer(ids)
    requires u == LoadTrieds(h, s1, Entries(s.mapInfo, ids))
    ensures Mirrors(u, s.mapInfo, a + ids) && TriedFrom(h, u, s.mapInfo, a + ids, |a|)
    ensures u.nKey == s.nKey && u.nNew == s1.nNew && u.nTried == s1.nTried + |ids| && u.news == s1.news
  {
    if ids == [] {
      assert a + ids == a;
    } else {
      var n := |ids| - 1;
      var t := LoadTrieds(h, s1, Entries(s.mapInfo, ids[..n]));
      PrefixDiffers(ids, n);
      TriedsMirror(h, s, s1, a, ids[..n], t);
      LastTried(h, s1, s.mapInfo, ids, n);
      TriedStep(h, s, t, a, ids, n, u);
    }
  }

  lemma LastTried(h: Env, s: State, m: map<int, AddrInfo>, ids: seq<int>, n: nat)
    requires (forall j :: 0 <= j < |ids| ==> ids[j] in m) && n + 1 == |ids|
    ensures LoadTrieds(h, s, Entries(m, ids)) ==
            LoadTried(h, LoadTrieds(h, s, Entries(m, ids[..n])), Written(m[ids[n]]))
  {
    EntriesPrefix(m, ids, n);
  }

  lemma TriedStep(h: Env, s: State, t: State, a: seq<int>, ids: seq<int>, n: nat, u: State)
    requires n + 1 == |ids| && TriedOk(h, s.nKey, s.mapInfo, s.tried) && t.nKey == s.nKey
    requires Mirrors(t, s.mapInfo, a + ids[..n]) && TriedFrom(h, t, s.mapInfo, a + ids[..n], |a|)
    requires forall j :: 0 <= j < |ids| ==> ids[j] in s.mapInfo && s.mapInfo[ids[j]].fInTried
    requires AllDiffer(ids)
    requires u == LoadTried(h, t, Written(s.mapInfo[ids[n]]))
    ensures Mirrors(u, s.mapInfo, a + ids) && TriedFrom(h, u, s.mapInfo, a + ids, |a|)
    ensures u.nKey == t.nKey && u.nNew == t.nNew && u.nTried == t.nTried + 1 && u.news == t.news
  {
    LastDiffers(ids, n);
    TriedFree(h, s, t, a, ids[..n], ids[n]);
    TriedAdded(h, t, s.mapInfo, a + ids[..n], ids[n], |a|);
    Snoc(a, ids, n);
  }

  lemma LastDiffers(ids: seq<int>, n: nat)
    requires AllDiffer(ids) && n + 1 == |ids|
    ensures forall j :: 0 <= j < n ==> ids[..n][j] != ids[n]
  {
    forall j | 0 <= j < n ensures ids[..n][j] != ids[n] { assert Differ(ids, j, n); }
  }

  lemma Snoc(a: seq<int>, b: seq<int>, n: nat)
    requires n + 1 == |b|
    ensures a + b == (a + b[..n]) + [b[n]]
  {
  }

  lemma TriedAdded(h: Env, t: State, m: map<int, AddrInfo>, ids: seq<int>, id: int, from: nat)
    requires Mirrors(t, m, ids) && TriedFrom(h, t, m, ids, from) && from <= |ids|
    requires id in m && m[id].fInTried && TriedSlot(h, t.nKey, m[id].addr.service) !in t.tried
    ensures var u := LoadTried(h, t, Written(m[id]));
            && Mirrors(u, m, ids + [id]) && TriedFrom(h, u, m, ids + [id], from)
            && u.nKey == t.nKey && u.nNew == t.nNew && u.nTried == t.nTried + 1 && u.news == t.news
  {
    AddMirror(t, m, ids, id, true);
  }

  /** No two tried entries share a slot. */
  lemma TriedFree(h: Env, s: State, t: State, a: seq<int>, ids: seq<int>, id: int)
    requires TriedOk(h, s.nKey, s.mapInfo, s.tried) && t.nKey == s.nKey && TriedFrom(h, t, s.mapInfo, a + ids, |a|)
    requires forall j :: 0 <= j < |ids| ==> ids[j] in s.mapInfo && s.mapInfo[ids[j]].fInTried && ids[j] != id
    requires id in s.mapInfo && s.mapInfo[id].fInTried
    ensures TriedSlot(h, t.nKey, s.mapInfo[id].addr.service) !in t.tried
  {
    var slot := TriedSlot(h, s.nKey, s.mapInfo[id].addr.service);
    assert slot in s.tried && s.tried[slot] == id;
  }

  predicate Done(slot: Slot, bucket: nat, i: nat) {
    slot.bucket < bucket || (slot.bucket == bucket && slot.pos < i)
  }

  /** The new slots before position i of a bucket are filled as they were. */
  ghost predicate Placed(u: State, s: State, ids: seq<int>, bucket: nat, i: nat) {
    && (forall slot :: slot in u.news <==> slot in s.news && Done(slot, bucket, i))
    && (forall slot :: slot in u.news ==> 0 <= u.news[slot] < |ids| && ids[u.news[slot]] == s.news[slot])
  }

  ghost predicate Reading(u: State, s: State, ids: seq<int>) {
    Mirrors(u, s.mapInfo, ids) && u.nKey == s.nKey
  }

  ghost predicate SameCounts(t: State, u: State) {
    t.tried == u.tried && t.nNew == u.nNew && t.nTried == u.nTried
  }

  lemma PlaceMirror(u: State, m: map<int, AddrInfo>, ids: seq<int>, n: int, slot: Slot)
    requires Mirrors(u, m, ids) && n in u.mapInfo
    ensures Mirrors(PlaceNew(u, n, slot), m, ids)
  {
  }

  /** Every reference counted stands in a slot. */
  ghost predicate RefsOk(u: State) {
    forall k :: k in u.mapInfo ==> u.mapInfo[k].nRefCount == |Occ(u.news, k)|
  }

  ghost predicate NewsOk(h: Env, s: State) { NewOk(h, s.nKey, s.mapInfo, s.news, {}) }

  /** What is known of a new slot that was written: what it refers to is found under the index
      written for it, belongs there, and has no more slots than an entry may have. */
  predicate SlotRight(h: Env, s: State, ids: seq<int>, count: nat, slot: Slot)
    requires slot in s.news
  {
    var j := Index(s.mapInfo, s.news[slot]);
    && 0 <= j < count <= |ids| && ids[j] == s.news[slot]
    && NewSlotOk(h, s.nKey, s.mapInfo, s.news, slot) && |Occ(s.news, s.news[slot])| <= NEW_BUCKETS_PER_ADDRESS
  }

  ghost predicate SlotsRight(h: Env, s: State, ids: seq<int>, count: nat) {
    forall slot {:trigger SlotRight(h, s, ids, count, slot)} :: slot in s.news ==> SlotRight(h, s, ids, count, slot)
  }

  /** References are still to come, so there is room for one more. */
  lemma RoomForReference(u: State, s: State, ids: seq<int>, j: int, slot: Slot, bucket: nat, i: nat)
    requires RefsOk(u) && Placed(u, s, ids, bucket, i)
    requires 0 <= j < |ids| && j in u.mapInfo && slot in s.news && s.news[slot] == ids[j] && slot !in u.news
    requires |Occ(s.news, ids[j])| <= NEW_BUCKETS_PER_ADDRESS
    ensures u.mapInfo[j].nRefCount < NEW_BUCKETS_PER_ADDRESS
  {
    var here, all := Occ(u.news, j), Occ(s.news, ids[j]);
    assert here <= all - {slot};
    Sets.SubsetSize(here, all - {slot});
    assert slot in all;
  }

  lemma IndexPlaces(h: Env, u: State, s: State, ids: seq<int>, count: nat, bucket: nat, i: nat, j: int, t: State,
                    next: nat)
    requires next == i + 1 && RefsOk(u) && Reading(u, s, ids) && Placed(u, s, ids, bucket, i)
    requires Slot(bucket, i) in s.news && SlotRight(h, s, ids, count, Slot(bucket, i))
    requires j == Index(s.mapInfo, s.news[Slot(bucket, i)]) && t == LoadIndex(h, u, bucket, j, count)
    ensures Placed(t, s, ids, bucket, next) && Reading(t, s, ids) && SameCounts(t, u) && RefsOk(t)
  {
    var slot := Slot(bucket, i);
    assert Written(u.mapInfo[j]) == Written(s.mapInfo[ids[j]]);
    assert slot !in u.news;
    RoomForReference(u, s, ids, j, slot, bucket, i);
    assert t == PlaceNew(u, j, slot);
    PlaceMirror(u, s.mapInfo, ids, j, slot);
    NowPlaced(u, s, ids, j, bucket, i, next);
    PlaceRefs(u, j, slot);
  }

  lemma PlaceRefs(u: State, n: int, slot: Slot)
    requires RefsOk(u) && n in u.mapInfo && slot !in u.news
    ensures RefsOk(PlaceNew(u, n, slot))
  {
    P.RefCountsPlace(u.mapInfo, u.news, n, slot);
  }

  lemma NowPlaced(u: State, s: State, ids: seq<int>, j: int, bucket: nat, i: nat, next: nat)
    requires next == i + 1 && Placed(u, s, ids, bucket, i) && Slot(bucket, i) in s.news && j in u.mapInfo
    requires 0 <= j < |ids| && ids[j] == s.news[Slot(bucket, i)]
    ensures Placed(PlaceNew(u, j, Slot(bucket, i)), s, ids, bucket, next)
  {
  }

  /** Positions before i of one bucket. */
  lemma {:induction false} BucketPlaces(h: Env, u: State, s: State, ids: seq<int>, count: nat, bucket: nat, i: nat,
                                        t: State)
    requires RefsOk(u) && Reading(u, s, ids) && Placed(u, s, ids, bucket, 0) && SlotsRight(h, s, ids, count)
    requires t == LoadBucket(h, u, bucket, BucketList(s.mapInfo, s.news, bucket, i), count)
    ensures Placed(t, s, ids, bucket, i) && Reading(t, s, ids) && SameCounts(t, u) && RefsOk(t)
  {
    if i > 0 {
      var t' := LoadBucket(h, u, bucket, BucketList(s.mapInfo, s.news, bucket, i - 1), count);
      BucketPlaces(h, u, s, ids, count, bucket, i - 1, t');
      LastIndex(h, u, s, bucket, i, count, t');
      PositionPlaces(h, t', s, ids, count, bucket, i - 1, t, i);
    }
  }

  lemma LastIndex(h: Env, u: State, s: State, bucket: nat, i: nat, count: nat, t: State)
    requires i > 0 && t == LoadBucket(h, u, bucket, BucketList(s.mapInfo, s.news, bucket, i - 1), count)
    ensures LoadBucket(h, u, bucket, BucketList(s.mapInfo, s.news, bucket, i), count) ==
            AtPosition(h, t, s, bucket, i - 1, count)
  {
    var list, all := BucketList(s.mapInfo, s.news, bucket, i - 1), BucketList(s.mapInfo, s.news, bucket, i);
    if Slot(bucket, i - 1) in s.news {
      assert all == list + [Index(s.mapInfo, s.news[Slot(bucket, i - 1)])] && all[..|list|] == list;
    } else {
      assert all == list;
    }
  }

  /** What was written for one position is read. */
  function AtPosition(h: Env, u: State, s: State, bucket: nat, i: nat, count: nat): State {
    if Slot(bucket, i) in s.news then LoadIndex(h, u, bucket, Index(s.mapInfo, s.news[Slot(bucket, i)]), count) else u
  }

  lemma PositionPlaces(h: Env, u: State, s: State, ids: seq<int>, count: nat, bucket: nat, i: nat, t: State, next: nat)
    requires next == i + 1 && RefsOk(u) && Reading(u, s, ids) && Placed(u, s, ids, bucket, i)
    requires SlotsRight(h, s, ids, count) && t == AtPosition(h, u, s, bucket, i, count)
    ensures Placed(t, s, ids, bucket, next) && Reading(t, s, ids) && SameCounts(t, u) && RefsOk(t)
  {
    if Slot(bucket, i) in s.news {
      assert SlotRight(h, s, ids, count, Slot(bucket, i));
      IndexPlaces(h, u, s, ids, count, bucket, i, Index(s.mapInfo, s.news[Slot(bucket, i)]), t, next);
    } else {
      NothingPlaced(t, s, ids, bucket, i, next);
    }
  }

  lemma NothingPlaced(t: State, s: State, ids: seq<int>, bucket: nat, i: nat, next: nat)
    requires next == i + 1 && Placed(t, s, ids, bucket, i) && Slot(bucket, i) !in s.news
    ensures Placed(t, s, ids, bucket, next)
  {
  }

  /** No new slot lies past the end of its bucket. */
  ghost predicate PositionsBelow(news: Table, size: nat) { forall slot :: slot in news ==> slot.pos < size }

  lemma {:induction false} BucketsPlace(h: Env, u: State, s: State, ids: seq<int>, count: nat, n: nat, size: nat,
                                        t: State)
    requires RefsOk(u) && Reading(u, s, ids) && Placed(u, s, ids, 0, 0)
    requires SlotsRight(h, s, ids, count) && PositionsBelow(s.news, size)
    requires t == LoadBuckets(h, u, BucketLists(s.mapInfo, s.news, n, size), count)
    ensures Placed(t, s, ids, n, 0) && Reading(t, s, ids) && SameCounts(t, u) && RefsOk(t)
  {
    if n > 0 {
      var t' := LoadBuckets(h, u, BucketLists(s.mapInfo, s.news, n - 1, size), count);
      BucketsPlace(h, u, s, ids, count, n - 1, size, t');
      LastBucket(h, u, BucketLists(s.mapInfo, s.news, n - 1, size), BucketList(s.mapInfo, s.news, n - 1, size), count,
                 n - 1);
      OneBucket(h, t', s, ids, count, n - 1, size, t, n);
    }
  }

  lemma LastBucket(h: Env, u: State, lists: seq<seq<int>>, last: seq<int>, count: nat, n: nat)
    requires n == |lists|
    ensures LoadBuckets(h, u, lists + [last], count) == LoadBucket(h, LoadBuckets(h, u, lists, count), n, last, count)
  {
    var all := lists + [last];
    assert all[..|lists|] == lists;
    assert LoadBuckets(h, u, all, count) ==
           LoadBucket(h, LoadBuckets(h, u, all[..|lists|], count), |lists|, last, count);
  }

  lemma OneBucket(h: Env, u: State, s: State, ids: seq<int>, count: nat, bucket: nat, size: nat, t: State, next: nat)
    requires next == bucket + 1 && RefsOk(u) && Reading(u, s, ids) && Placed(u, s, ids, bucket, 0)
    requires SlotsRight(h, s, ids, count) && PositionsBelow(s.news, size)
    requires t == LoadBucket(h, u, bucket, BucketList(s.mapInfo, s.news, bucket, size), count)
    ensures Placed(t, s, ids, next, 0) && Reading(t, s, ids) && SameCounts(t, u) && RefsOk(t)
  {
    BucketPlaces(h, u, s, ids, count, bucket, size, t);
    BucketFull(t, s, ids, bucket, size, next);
  }

  lemma BucketFull(t: State, s: State, ids: seq<int>, bucket: nat, size: nat, next: nat)
    requires next == bucket + 1 && PositionsBelow(s.news, size) && Placed(t, s, ids, bucket, size)
    ensures Placed(t, s, ids, next, 0)
  {
  }

  // ---------------------------------------------------------------- the round trip

  /** The tables, entries and counters of s under new ids: entry j of u is entry ids[j] of s. */
  ghost predicate Restored(u: State, s: State, ids: seq<int>) {
    && u.nKey == s.nKey && u.nNew == s.nNew && u.nTried == s.nTried && Mirrors(u, s.mapInfo, ids)
    && (forall n :: n in s.mapInfo ==> n in ids)
    && (forall j :: 0 <= j < |ids| ==> u.mapInfo[j].nRefCount == s.mapInfo[ids[j]].nRefCount)
    && SameTable(u.news, s.news, ids) && SameTable(u.tried, s.tried, ids)
    && (forall ip :: ip in u.mapAddr <==> ip in s.mapAddr)
    && (forall ip :: ip in u.mapAddr ==> 0 <= u.mapAddr[ip] < |ids| && ids[u.mapAddr[ip]] == s.mapAddr[ip])
  }

  ghost predicate SameTable(t: Table, u: Table, ids: seq<int>) {
    && (forall slot :: slot in t <==> slot in u)
    && (forall slot :: slot in t ==> 0 <= t[slot] < |ids| && ids[t[slot]] == u[slot])
  }

  lemma KeptIs(h: Env, s: State, n: int)
    requires Inv(h, s) && n in s.mapInfo
    ensures Kept(s.mapInfo[n], false) <==> !s.mapInfo[n].fInTried
  {
    if s.mapInfo[n].fInTried { P.TriedHasNoRef(h, s, n, {}, 0); }
  }

  lemma ListedIsKept(h: Env, s: State, tried: bool)
    requires Inv(h, s)
    ensures forall n :: n in IdList(s.mapInfo, tried, s.nIdCount) <==> n in s.mapInfo && s.mapInfo[n].fInTried == tried
  {
    var l := IdList(s.mapInfo, tried, s.nIdCount);
    forall n
      ensures n in l <==> n in s.mapInfo && s.mapInfo[n].fInTried == tried
    {
      if n in s.mapInfo {
        KeptIs(h, s, n);
        if s.mapInfo[n].fInTried == tried { ListsAll(s.mapInfo, tried, s.nIdCount, n); }
      }
    }
  }

  /** Every id is listed exactly once. */
  lemma OrderIs(h: Env, s: State)
    requires Inv(h, s)
    ensures var a, ids := IdList(s.mapInfo, false, s.nIdCount), Order(s);
            && (forall j :: 0 <= j < |ids| ==> ids[j] in s.mapInfo && s.mapInfo[ids[j]].fInTried == (j >= |a|))
            && AllDiffer(ids)
            && (forall n :: n in s.mapInfo ==> n in ids)
  {
    ListedIsKept(h, s, false);
    ListedIsKept(h, s, true);
    var a, b, ids := IdList(s.mapInfo, false, s.nIdCount), IdList(s.mapInfo, true, s.nIdCount), Order(s);
    forall j | 0 <= j < |ids|
      ensures ids[j] in s.mapInfo && s.mapInfo[ids[j]].fInTried == (j >= |a|)
    {
      assert if j < |a| then ids[j] in a else ids[j] in b;
    }
  }

  lemma SlotsAreRight(h: Env, s: State)
    requires Inv(h, s)
    ensures SlotsRight(h, s, Order(s), |IdList(s.mapInfo, false, s.nIdCount)|)
  {
    forall slot | slot in s.news
      ensures SlotRight(h, s, Order(s), |IdList(s.mapInfo, false, s.nIdCount)|, slot)
    {
      assert NewSlotOk(h, s.nKey, s.mapInfo, s.news, slot);
      KeptIs(h, s, s.news[slot]);
      ListsAll(s.mapInfo, false, s.nIdCount, s.news[slot]);
    }
  }

  lemma EntriesConcat(m: map<int, AddrInfo>, a: seq<int>, b: seq<int>)
    requires (forall j :: 0 <= j < |a| ==> a[j] in m) && (forall j :: 0 <= j < |b| ==> b[j] in m)
    ensures var ab := a + b;
            (forall j :: 0 <= j < |ab| ==> ab[j] in m) && Entries(m, a) + Entries(m, b) == Entries(m, ab)
  {
    var ab := a + b;
    assert forall j :: 0 <= j < |ab| ==> ab[j] == if j < |a| then a[j] else b[j - |a|];
  }

  lemma EntriesDistinct(m: map<int, AddrInfo>, addrs: map<nat, int>, ids: seq<int>)
    requires AddrOk(m, addrs) && forall j :: 0 <= j < |ids| ==> ids[j] in m
    requires AllDiffer(ids)
    ensures Distinct(Entries(m, ids))
  {
    forall j, k | 0 <= j < k < |ids|
      ensures ids[j] in m && ids[k] in m && m[ids[j]].Ip() != m[ids[k]].Ip()
    {
      assert Differ(ids, j, k);
      OwnAddress(m, addrs, ids[j]);
      OwnAddress(m, addrs, ids[k]);
    }
  }

  lemma OwnAddress(m: map<int, AddrInfo>, addrs: map<nat, int>, n: int)
    requires AddrOk(m, addrs) && n in m
    ensures m[n].Ip() in addrs && addrs[m[n].Ip()] == n
  {
  }

  lemma DumpDistinct(h: Env, s: State)
    requires Inv(h, s)
    ensures Distinct(Dump(s).news + Dump(s).tried)
  {
    OrderIs(h, s);
    ListsSplit(h, s, IdList(s.mapInfo, false, s.nIdCount), IdList(s.mapInfo, true, s.nIdCount));
    EntriesConcat(s.mapInfo, IdList(s.mapInfo, false, s.nIdCount), IdList(s.mapInfo, true, s.nIdCount));
    EntriesDistinct(s.mapInfo, s.mapAddr, Order(s));
  }

  lemma FlipTwice()
    ensures FlipMark(FlipMark(NEW_BUCKET_COUNT)) == NEW_BUCKET_COUNT
  {
  }

  lemma DumpReadable(h: Env, s: State)
    requires Inv(h, s)
    ensures Readable(Dump(s)) && Current(Dump(s)) && Dump(s).nNew >= 0 && Dump(s).nTried >= 0
  {
    SameCounters(h, s);
    FlipTwice();
  }

  /** The entries of the file read, before the buckets. */
  lemma EntriesLoaded(h: Env, s: State)
    requires Inv(h, s)
    ensures var u := LoadEntries(h, Dump(s));
            && Reading(u, s, Order(s)) && TriedFrom(h, u, s.mapInfo, Order(s), 0) && u.news == map[]
            && u.nNew == |IdList(s.mapInfo, false, s.nIdCount)| && u.nTried == |IdList(s.mapInfo, true, s.nIdCount)|
  {
    var a, b := IdList(s.mapInfo, false, s.nIdCount), IdList(s.mapInfo, true, s.nIdCount);
    ListsSplit(h, s, a, b);
    ListsLoaded(h, s, a, b);
    DumpReadable(h, s);
    NewsLoadedRead(h, Dump(s));
    SameCounters(h, s);
    var u := LoadTrieds(h, LoadNews(h, R.EmptyState(s.nKey), Entries(s.mapInfo, a), true), Entries(s.mapInfo, b));
    assert LoadEntries(h, Dump(s)) == u;
  }

  lemma ListsLoaded(h: Env, s: State, a: seq<int>, b: seq<int>)
    requires TriedOk(h, s.nKey, s.mapInfo, s.tried)
    requires forall j :: 0 <= j < |a| ==> a[j] in s.mapInfo && !s.mapInfo[a[j]].fInTried
    requires forall j :: 0 <= j < |b| ==> b[j] in s.mapInfo && s.mapInfo[b[j]].fInTried
    requires forall j, k :: 0 <= j < k < |b| ==> b[j] < b[k]
    ensures var s1 := LoadNews(h, R.EmptyState(s.nKey), Entries(s.mapInfo, a), true);
            var u := LoadTrieds(h, s1, Entries(s.mapInfo, b));
            && Reading(u, s, a + b) && TriedFrom(h, u, s.mapInfo, a + b, |a|) && u.news == map[]
            && u.nNew == |a| && u.nTried == |b|
  {
    NewsMirror(h, s.nKey, s.mapInfo, a);
    var s1 := LoadNews(h, R.EmptyState(s.nKey), Entries(s.mapInfo, a), true);
    TriedsMirror(h, s, s1, a, b, LoadTrieds(h, s1, Entries(s.mapInfo, b)));
  }

  lemma ListsSplit(h: Env, s: State, a: seq<int>, b: seq<int>)
    requires Inv(h, s) && a == IdList(s.mapInfo, false, s.nIdCount) && b == IdList(s.mapInfo, true, s.nIdCount)
    ensures forall j :: 0 <= j < |a| ==> a[j] in s.mapInfo && !s.mapInfo[a[j]].fInTried
    ensures forall j :: 0 <= j < |b| ==> b[j] in s.mapInfo && s.mapInfo[b[j]].fInTried
  {
    ListedIsKept(h, s, false);
    forall j | 0 <= j < |a|
      ensures a[j] in s.mapInfo && !s.mapInfo[a[j]].fInTried
    {
      assert a[j] in a;
    }
  }

  /** All of the file read, before pruning. */
  lemma DumpLoaded(h: Env, s: State, u: State)
    requires Inv(h, s) && u == Loaded(h, Dump(s))
    ensures Reading(u, s, Order(s)) && Placed(u, s, Order(s), NEW_BUCKET_COUNT, 0)
    ensures u.nNew == s.nNew && u.nTried == s.nTried
  {
    var f := Dump(s);
    var e := LoadEntries(h, f);
    EntriesBack(h, s, f, e);
    SlotsAreRight(h, s);
    BucketsBack(h, s, f, e, u);
  }

  lemma BucketsBack(h: Env, s: State, f: File, e: State, u: State)
    requires s.nIdCount >= 0 && f == Dump(s) && Current(f) && e == LoadEntries(h, f) && u == Loaded(h, f)
    requires RefsOk(e) && Reading(e, s, Order(s)) && e.news == map[] && SlotsRight(h, s, Order(s), |f.news|)
    ensures Reading(u, s, Order(s)) && Placed(u, s, Order(s), NEW_BUCKET_COUNT, 0) && SameCounts(u, e)
  {
    BucketsLoaded(h, s, e, Order(s), |f.news|, NEW_BUCKET_COUNT, BUCKET_SIZE, u);
  }

  lemma EntriesBack(h: Env, s: State, f: File, e: State)
    requires Inv(h, s) && f == Dump(s) && e == LoadEntries(h, f)
    ensures Current(f) && RefsOk(e) && Reading(e, s, Order(s)) && e.news == map[]
    ensures e.nNew == s.nNew && e.nTried == s.nTried
  {
    DumpReadable(h, s);
    LoadingSteps(h, f);
    EntriesLoaded(h, s);
    SameCounters(h, s);
  }

  lemma BucketsLoaded(h: Env, s: State, u: State, ids: seq<int>, count: nat, n: nat, size: nat, t: State)
    requires RefsOk(u) && Reading(u, s, ids) && u.news == map[] && SlotsRight(h, s, ids, count) && size >= BUCKET_SIZE
    requires t == LoadBuckets(h, u, BucketLists(s.mapInfo, s.news, n, size), count)
    ensures Reading(t, s, ids) && Placed(t, s, ids, n, 0) && SameCounts(t, u)
  {
    forall slot | slot in s.news
      ensures slot.pos < size
    {
      assert SlotRight(h, s, ids, count, slot);
    }
    BucketsPlace(h, u, s, ids, count, n, size, t);
  }

  lemma {:induction false} PruneNothing(s: State, n: nat)
    requires RandomOk(s.mapInfo, s.vRandom) && forall k :: 0 <= k < n ==> !Prunable(s, k)
    ensures Prune(s, n) == s
  {
    if n > 0 { PruneNothing(s, n - 1); }
  }

  /** References of an entry stand in the same slots as before, so their number is the same. */
  lemma SameReferences(h: Env, s: State, u: State, ids: seq<int>, j: int)
    requires NewsOk(h, s) && RefsOk(u) && Placed(u, s, ids, NEW_BUCKET_COUNT, 0)
    requires AllDiffer(ids)
    requires 0 <= j < |ids| && j in u.mapInfo && ids[j] in s.mapInfo
    ensures u.mapInfo[j].nRefCount == s.mapInfo[ids[j]].nRefCount
  {
    SameSlots(h, s, u, ids, j);
    assert u.mapInfo[j].nRefCount == |Occ(u.news, j)| && s.mapInfo[ids[j]].nRefCount == |Occ(s.news, ids[j])|;
  }

  lemma SameSlots(h: Env, s: State, u: State, ids: seq<int>, j: int)
    requires (forall x :: x in s.news ==> NewSlotOk(h, s.nKey, s.mapInfo, s.news, x)) &&
             Placed(u, s, ids, NEW_BUCKET_COUNT, 0)
    requires AllDiffer(ids)
    requires 0 <= j < |ids|
    ensures Occ(u.news, j) == Occ(s.news, ids[j])
  {
    forall slot
      ensures slot in Occ(u.news, j) <==> slot in Occ(s.news, ids[j])
    {
      if slot in Occ(s.news, ids[j]) {
        assert NewSlotOk(h, s.nKey, s.mapInfo, s.news, slot);
        OnePlace(ids, j, u.news[slot]);
      }
    }
  }

  lemma OnePlace(ids: seq<int>, j: int, k: int)
    requires AllDiffer(ids) && 0 <= j < |ids| && 0 <= k < |ids| && ids[j] == ids[k]
    ensures j == k
  {
    assert j < k ==> Differ(ids, j, k);
    assert k < j ==> Differ(ids, k, j);
  }

  /** Nothing is pruned after reading what was written. */
  lemma NothingLost(h: Env, s: State, u: State, ids: seq<int>)
    requires Inv(h, s) && Loading(h, u) && Mirrors(u, s.mapInfo, ids)
    requires forall j :: 0 <= j < |ids| ==> u.mapInfo[j].nRefCount == s.mapInfo[ids[j]].nRefCount
    ensures Pruned(u) == u
  {
    forall k | 0 <= k < u.nIdCount
      ensures !Prunable(u, k)
    {
      KeptIs(h, s, ids[k]);
      assert SameEntry(u.mapInfo[k], s.mapInfo[ids[k]]);
    }
    PruneNothing(u, Turns(u.nIdCount));
  }

  lemma SameCounters(h: Env, s: State)
    requires Inv(h, s)
    ensures s.nNew == |IdList(s.mapInfo, false, s.nIdCount)| && s.nTried == |IdList(s.mapInfo, true, s.nIdCount)|
  {
    ListedIsKept(h, s, false);
    ListedIsKept(h, s, true);
    var a, b := IdList(s.mapInfo, false, s.nIdCount), IdList(s.mapInfo, true, s.nIdCount);
    forall n | n in NewIds(s.mapInfo) ensures n in a {}
    forall n | n in TriedIds(s.mapInfo) ensures n in b {}
    forall j | 0 <= j < |a| ensures a[j] in NewIds(s.mapInfo) { assert a[j] in a; }
    R.ListingSize(a, NewIds(s.mapInfo));
    R.ListingSize(b, TriedIds(s.mapInfo));
  }

  lemma TriedSame(h: Env, s: State, u: State, ids: seq<int>)
    requires TriedOk(h, s.nKey, s.mapInfo, s.tried) && TriedOk(h, u.nKey, u.mapInfo, u.tried)
    requires Mirrors(u, s.mapInfo, ids) && u.nKey == s.nKey && forall n :: n in s.mapInfo ==> n in ids
    ensures SameTable(u.tried, s.tried, ids)
  {
    forall slot | slot in s.tried
      ensures slot in u.tried
    {
      var j :| 0 <= j < |ids| && ids[j] == s.tried[slot];
      assert SameEntry(u.mapInfo[j], s.mapInfo[ids[j]]);
    }
    forall slot | slot in u.tried
      ensures slot in s.tried && 0 <= u.tried[slot] < |ids| && ids[u.tried[slot]] == s.tried[slot]
    {
      var n := ids[u.tried[slot]];
      assert SameEntry(u.mapInfo[u.tried[slot]], s.mapInfo[n]);
      assert slot == TriedSlot(h, s.nKey, s.mapInfo[n].addr.service);
    }
  }

  lemma AddressesSame(s: State, u: State, ids: seq<int>)
    requires AddrOk(s.mapInfo, s.mapAddr) && AddrOk(u.mapInfo, u.mapAddr) && Mirrors(u, s.mapInfo, ids)
    requires forall n :: n in s.mapInfo ==> n in ids
    ensures forall ip :: ip in u.mapAddr <==> ip in s.mapAddr
    ensures forall ip :: ip in u.mapAddr ==> 0 <= u.mapAddr[ip] < |ids| && ids[u.mapAddr[ip]] == s.mapAddr[ip]
  {
    forall ip | ip in s.mapAddr
      ensures ip in u.mapAddr
    {
      var j :| 0 <= j < |ids| && ids[j] == s.mapAddr[ip];
      assert SameEntry(u.mapInfo[j], s.mapInfo[ids[j]]);
    }
    forall ip | ip in u.mapAddr
      ensures ip in s.mapAddr && 0 <= u.mapAddr[ip] < |ids| && ids[u.mapAddr[ip]] == s.mapAddr[ip]
    {
      var n := ids[u.mapAddr[ip]];
      assert SameEntry(u.mapInfo[u.mapAddr[ip]], s.mapInfo[n]);
      assert s.mapInfo[n].Ip() == ip;
    }
  }

  /** What is read back from a consistent manager's file is the same manager under new ids: nothing
      is lost to collisions. */
  lemma FileRoundTrip(h: Env, s: State)
    requires Inv(h, s)
    ensures var u := Loaded(h, Dump(s));
            Readable(Dump(s)) && Read(u) && Pruned(u) == u && Inv(h, u) && Restored(u, s, Order(s))
  {
    RoundTripAt(h, s, Dump(s), Loaded(h, Dump(s)));
  }

  lemma RoundTripAt(h: Env, s: State, f: File, u: State)
    requires Inv(h, s) && f == Dump(s) && u == Loaded(h, f)
    ensures Readable(f) && Read(u) && Pruned(u) == u && Inv(h, u) && Restored(u, s, Order(s))
  {
    LoadedBack(h, s, f, u);
    DumpLoaded(h, s, u);
    OrderIs(h, s);
    ReferencesSame(h, s, u, Order(s));
    NothingLost(h, s, u, Order(s));
    RestoredIs(h, s, u, Order(s));
  }

  lemma LoadedBack(h: Env, s: State, f: File, u: State)
    requires Inv(h, s) && f == Dump(s) && u == Loaded(h, f)
    ensures Readable(f) && Read(u) && Loading(h, u) && Inv(h, Pruned(u))
  {
    DumpReadable(h, s);
    DumpDistinct(h, s);
    LoadedRead(h, f);
    LoadedConsistent(h, f);
    LoadingSteps(h, f);
  }

  lemma ReferencesSame(h: Env, s: State, u: State, ids: seq<int>)
    requires NewsOk(h, s) && Loading(h, u) && Placed(u, s, ids, NEW_BUCKET_COUNT, 0) && Mirrors(u, s.mapInfo, ids)
    requires AllDiffer(ids)
    ensures forall j :: 0 <= j < |ids| ==> u.mapInfo[j].nRefCount == s.mapInfo[ids[j]].nRefCount
  {
    assert RefsOk(u);
    forall j | 0 <= j < |ids|
      ensures u.mapInfo[j].nRefCount == s.mapInfo[ids[j]].nRefCount
    {
      SameReferences(h, s, u, ids, j);
    }
  }

  lemma RestoredIs(h: Env, s: State, u: State, ids: seq<int>)
    requires Inv(h, s) && Inv(h, u) && Reading(u, s, ids) && Placed(u, s, ids, NEW_BUCKET_COUNT, 0)
    requires u.nNew == s.nNew && u.nTried == s.nTried && forall n :: n in s.mapInfo ==> n in ids
    requires forall j :: 0 <= j < |ids| ==> u.mapInfo[j].nRefCount == s.mapInfo[ids[j]].nRefCount
    ensures Restored(u, s, ids)
  {
    TriedSame(h, s, u, ids);
    AddressesSame(s, u, ids);
    NewsSame(h, s, u, ids);
  }

  lemma NewsSame(h: Env, s: State, u: State, ids: seq<int>)
    requires NewOk(h, s.nKey, s.mapInfo, s.news, {}) && Placed(u, s, ids, NEW_BUCKET_COUNT, 0)
    ensures SameTable(u.news, s.news, ids)
  {
    forall slot | slot in s.news
      ensures slot in u.news
    {
      assert NewSlotOk(h, s.nKey, s.mapInfo, s.news, slot);
    }
  }
}
