/** Which files give a consistent manager, told from the file alone. */
module AddrManOutcome {
  import opened AddrManSpec
  import opened AddrManFile
  import opened AddrManLoad

  // ---------------------------------------------------------------- what a file says

  function TriedSlotOf(h: Env, key: nat, e: Entry): Slot { TriedSlot(h, key, e.addr.service) }

  function HomeOf(h: Env, key: nat, e: Entry): Slot { NewSlot(h, key, e.addr.service, e.source) }

  /** A tried entry is read unless one before it has its slot. */
  predicate TriedKept(h: Env, key: nat, es: seq<Entry>, k: nat)
    requires k < |es|
  {
    forall j :: 0 <= j < k ==> TriedSlotOf(h, key, es[j]) != TriedSlotOf(h, key, es[k])
  }

  /** The slots the bucket lists hand out: an index takes its slot of the bucket, unless that is taken
      or the index has eight. */
  function Reference(h: Env, key: nat, es: seq<Entry>, t: Table, bucket: nat, index: int): Table {
    if 0 <= index < |es| && NewSlotIn(h, key, bucket, es[index].addr.service) !in t &&
      |Occ(t, index)| < NEW_BUCKETS_PER_ADDRESS
    then t[NewSlotIn(h, key, bucket, es[index].addr.service) := index]
    else t
  }

  function References(h: Env, key: nat, es: seq<Entry>, t: Table, bucket: nat, list: seq<int>): Table {
    if list == [] then t
    else Reference(h, key, es, References(h, key, es, t, bucket, list[..|list| - 1]), bucket, list[|list| - 1])
  }

  function AllReferences(h: Env, key: nat, es: seq<Entry>, lists: seq<seq<int>>): Table {
    if lists == [] then map[]
    else
      var n := |lists| - 1;
      References(h, key, es, AllReferences(h, key, es, lists[..n]), n, lists[n])
  }

  /** A new entry stays if its index has a slot; or, if the buckets cannot be used, if no entry before
      it has its home slot. */
  predicate NewKept(h: Env, f: File, j: nat)
    requires j < |f.news|
  {
    if Current(f) then Occ(AllReferences(h, f.nKey, f.news, f.buckets), j) != {}
    else HomeFree(h, f.nKey, f.news, j)
  }

  predicate HomeFree(h: Env, key: nat, es: seq<Entry>, j: nat)
    requires j < |es|
  {
    forall i :: 0 <= i < j ==> HomeOf(h, key, es[i]) != HomeOf(h, key, es[j])
  }

  function IpOf(e: Entry): nat { e.addr.service.ip }

  /** No entry that stays shares its IP address with another entry that is read. */
  ghost predicate AddressesOk(h: Env, f: File) {
    && (forall i, j :: 0 <= i < |f.news| && 0 <= j < |f.news| && i != j && NewKept(h, f, i) ==>
        IpOf(f.news[i]) != IpOf(f.news[j]))
    && (forall j, k :: 0 <= j < |f.news| && 0 <= k < |f.tried| && TriedKept(h, f.nKey, f.tried, k) ==>
          IpOf(f.news[j]) != IpOf(f.tried[k]))
    && (forall k, l :: 0 <= k < l < |f.tried| ==>
          TriedKept(h, f.nKey, f.tried, k) && TriedKept(h, f.nKey, f.tried, l) ==> IpOf(f.tried[k]) != IpOf(f.tried[l]))
  }

  /** No entry that stays has a negative time of success, and no tried one has none. */
  ghost predicate SuccessesOk(h: Env, f: File) {
    && (forall j :: 0 <= j < |f.news| && NewKept(h, f, j) ==> f.news[j].nLastSuccess >= 0)
    && (forall k :: 0 <= k < |f.tried| && TriedKept(h, f.nKey, f.tried, k) ==> f.tried[k].nLastSuccess > 0)
  }

  predicate CountsOk(f: File) { f.nNew >= 0 && f.nTried >= 0 }

  // ---------------------------------------------------------------- the entries read

  /** Id n is of the entry e. */
  predicate Stands(m: map<int, AddrInfo>, n: int, e: Entry, tried: bool) {
    n in m && Written(m[n]) == e && m[n].nLastTry == 0 && m[n].fInTried == tried
  }

  /** The new entries have the ids of their places in the list. */
  ghost predicate NewsStand(m: map<int, AddrInfo>, es: seq<Entry>) {
    forall j :: 0 <= j < |es| ==> Stands(m, j, es[j], false)
  }

  /** Without buckets, an entry has a reference exactly if its home was free. */
  ghost predicate HomesTaken(h: Env, key: nat, t: Table, es: seq<Entry>) {
    && (forall slot :: slot in t ==> exists i :: 0 <= i < |es| && HomeOf(h, key, es[i]) == slot)
    && (forall i :: 0 <= i < |es| ==> HomeOf(h, key, es[i]) in t)
  }

  predicate Referred(h: Env, key: nat, m: map<int, AddrInfo>, es: seq<Entry>, j: nat)
    requires j < |es|
  {
    j in m && (m[j].nRefCount == 0 <==> !HomeFree(h, key, es, j))
  }

  ghost predicate AllReferred(h: Env, key: nat, m: map<int, AddrInfo>, es: seq<Entry>) {
    forall j :: 0 <= j < |es| ==> Referred(h, key, m, es, j)
  }

  lemma {:induction false} NextStands(m: map<int, AddrInfo>, m': map<int, AddrInfo>, es: seq<Entry>, e: Entry)
    requires NewsStand(m, es) && |es| in m' && m' == m[|es| := m'[|es|]] && Stands(m', |es|, e, false)
    requires forall n :: n in m ==> 0 <= n < |es|
    ensures NewsStand(m', es + [e]) && forall n :: n in m' ==> 0 <= n < |es + [e]|
  {
    var fs := es + [e];
    forall j | 0 <= j < |fs|
      ensures Stands(m', j, fs[j], false)
    {
      if j < |es| { assert Stands(m, j, es[j], false); }
    }
  }

  lemma {:induction false} NextHome(h: Env, key: nat, t: Table, u: Table, es: seq<Entry>, e: Entry)
    requires HomesTaken(h, key, t, es) && u.Keys == t.Keys + {HomeOf(h, key, e)}
    ensures HomesTaken(h, key, u, es + [e])
    ensures HomeFree(h, key, es + [e], |es|) <==> HomeOf(h, key, e) !in t
  {
    var fs := es + [e];
    assert fs[|es|] == e && forall k :: 0 <= k < |es| ==> fs[k] == es[k];
    forall slot | slot in u
      ensures exists k :: 0 <= k < |fs| && HomeOf(h, key, fs[k]) == slot
    {
      if slot in t {
        var k :| 0 <= k < |es| && HomeOf(h, key, es[k]) == slot;
        assert fs[k] == es[k];
      } else {
        assert HomeOf(h, key, fs[|es|]) == slot;
      }
    }
    if HomeOf(h, key, e) in t {
      var k :| 0 <= k < |es| && HomeOf(h, key, es[k]) == HomeOf(h, key, e);
      assert fs[k] == es[k];
    }
  }

  lemma {:induction false} NextReferred(h: Env, key: nat, m: map<int, AddrInfo>, m': map<int, AddrInfo>,
                                        es: seq<Entry>, e: Entry)
    requires AllReferred(h, key, m, es) && |es| in m' && m' == m[|es| := m'[|es|]]
    requires m'[|es|].nRefCount == 0 <==> !HomeFree(h, key, es + [e], |es|)
    ensures AllReferred(h, key, m', es + [e])
  {
    var fs := es + [e];
    forall j | 0 <= j < |fs|
      ensures Referred(h, key, m', fs, j)
    {
      if j < |es| {
        assert Referred(h, key, m, es, j);
        assert forall k :: 0 <= k <= j ==> fs[k] == es[k];
        assert HomeFree(h, key, fs, j) == HomeFree(h, key, es, j);
      }
    }
  }

  /** The new list is read. */
  ghost predicate NewsDone(h: Env, key: nat, es: seq<Entry>, current: bool, t: State) {
    && NewsStand(t.mapInfo, es) && t.nIdCount == |es| && t.nKey == key && t.tried == map[]
    && (forall n :: n in t.mapInfo ==> 0 <= n < |es|)
    && if current then t.news == map[] else HomesTaken(h, key, t.news, es) && AllReferred(h, key, t.mapInfo, es)
  }

  lemma {:induction false} NextNew(h: Env, key: nat, es: seq<Entry>, e: Entry, current: bool, s: State, t: State)
    requires NewsDone(h, key, es, current, s) && t == LoadNew(h, s, e, current)
    ensures NewsDone(h, key, es + [e], current, t)
  {
    var i := LoadNewIs(h, s, e, current);
    NextStands(s.mapInfo, t.mapInfo, es, e);
    if !current {
      NextHome(h, key, s.news, t.news, es, e);
      NextReferred(h, key, s.mapInfo, t.mapInfo, es, e);
    }
  }

  lemma {:induction false} NoNews(h: Env, key: nat, current: bool)
    ensures NewsDone(h, key, [], current, R.EmptyState(key))
  {
  }

  lemma {:induction false} NewsRead(h: Env, key: nat, es: seq<Entry>, current: bool, t: State)
    requires t == LoadNews(h, R.EmptyState(key), es, current)
    ensures NewsDone(h, key, es, current, t)
    decreases |es|
  {
    if es == [] {
      NoNews(h, key, current);
    } else {
      var n := |es| - 1;
      var before := es[..n];
      var u := LoadNews(h, R.EmptyState(key), before, current);
      NewsRead(h, key, before, current, u);
      NextNew(h, key, before, es[n], current, u, t);
      assert before + [es[n]] == es;
    }
  }

  /** The places of the tried entries that are read, in order. */
  function TriedRead(h: Env, key: nat, es: seq<Entry>): seq<nat> {
    if es == [] then []
    else
      var n := |es| - 1;
      TriedRead(h, key, es[..n]) + if TriedKept(h, key, es, n) then [n] else []
  }

  ghost predicate Lists(h: Env, key: nat, es: seq<Entry>, w: seq<nat>) {
    && (forall q :: 0 <= q < |w| ==> w[q] < |es| && TriedKept(h, key, es, w[q]))
    && (forall p, q :: 0 <= p < q < |w| ==> w[p] < w[q])
    && (forall k :: 0 <= k < |es| && TriedKept(h, key, es, k) ==> k in w)
  }

  lemma {:induction false} NextLists(h: Env, key: nat, es: seq<Entry>, e: Entry, w: seq<nat>, fs: seq<Entry>)
    requires Lists(h, key, es, w) && fs == es + [e]
    ensures Lists(h, key, fs, w + if TriedKept(h, key, fs, |es|) then [|es|] else [])
  {
    forall k | 0 <= k < |es|
      ensures TriedKept(h, key, fs, k) == TriedKept(h, key, es, k)
    {
      assert forall i :: 0 <= i <= k ==> fs[i] == es[i];
    }
    var v := w + if TriedKept(h, key, fs, |es|) then [|es|] else [];
    forall k | 0 <= k < |fs| && TriedKept(h, key, fs, k)
      ensures k in v
    {
      if k < |es| { assert k in w; } else { assert v[|w|] == k; }
    }
  }

  lemma {:induction false} TriedReadLists(h: Env, key: nat, es: seq<Entry>)
    ensures Lists(h, key, es, TriedRead(h, key, es))
  {
    if es != [] {
      var n := |es| - 1;
      TriedReadLists(h, key, es[..n]);
      NextLists(h, key, es[..n], es[n], TriedRead(h, key, es[..n]), es);
    }
  }

  /** The tried entries read have the ids from `base` on. */
  ghost predicate TriedStand(m: map<int, AddrInfo>, base: nat, es: seq<Entry>, w: seq<nat>) {
    forall q :: 0 <= q < |w| ==> w[q] < |es| && Stands(m, base + q, es[w[q]], true)
  }

  ghost predicate SlotsTaken(h: Env, key: nat, t: Table, es: seq<Entry>) {
    && (forall slot :: slot in t ==> exists k :: 0 <= k < |es| && TriedSlotOf(h, key, es[k]) == slot)
    && (forall k :: 0 <= k < |es| ==> TriedSlotOf(h, key, es[k]) in t)
  }

  lemma {:induction false} NextSlot(h: Env, key: nat, t: Table, u: Table, es: seq<Entry>, e: Entry)
    requires SlotsTaken(h, key, t, es) && u.Keys == t.Keys + {TriedSlotOf(h, key, e)}
    ensures SlotsTaken(h, key, u, es + [e])
    ensures TriedKept(h, key, es + [e], |es|) <==> TriedSlotOf(h, key, e) !in t
  {
    var fs := es + [e];
    assert fs[|es|] == e && forall k :: 0 <= k < |es| ==> fs[k] == es[k];
    forall slot | slot in u
      ensures exists k :: 0 <= k < |fs| && TriedSlotOf(h, key, fs[k]) == slot
    {
      if slot in t {
        var k :| 0 <= k < |es| && TriedSlotOf(h, key, es[k]) == slot;
        assert fs[k] == es[k];
      } else {
        assert TriedSlotOf(h, key, fs[|es|]) == slot;
      }
    }
    if TriedSlotOf(h, key, e) in t {
      var k :| 0 <= k < |es| && TriedSlotOf(h, key, es[k]) == TriedSlotOf(h, key, e);
      assert fs[k] == es[k];
    }
  }

  /** The first entries are as they were. */
  ghost predicate FirstSame(m: map<int, AddrInfo>, m': map<int, AddrInfo>, count: nat) {
    forall n :: 0 <= n < count ==> n in m && n in m' && m'[n] == m[n]
  }

  /** The tried list is read after `base` new entries, which are as they were. */
  ghost predicate TriedDone(h: Env, s: State, base: nat, es: seq<Entry>, w: seq<nat>, t: State) {
    && FirstSame(s.mapInfo, t.mapInfo, base) && t.news == s.news && t.nKey == s.nKey
    && TriedStand(t.mapInfo, base, es, w) && t.nIdCount == base + |w|
    && (forall n :: n in t.mapInfo ==> 0 <= n < base + |w|)
    && SlotsTaken(h, s.nKey, t.tried, es)
  }

  lemma {:induction false} NextTriedStand(m: map<int, AddrInfo>, m': map<int, AddrInfo>, base: nat, es: seq<Entry>,
                                          e: Entry, w: seq<nat>, n: nat)
    requires TriedStand(m, base, es, w) && n == base + |w| && n in m' && m' == m[n := m'[n]] && Stands(m', n, e, true)
    ensures TriedStand(m', base, es + [e], w + [|es|])
  {
    var fs, v := es + [e], w + [|es|];
    forall q | 0 <= q < |v|
      ensures v[q] < |fs| && Stands(m', base + q, fs[v[q]], true)
    {
      if q < |w| { assert Stands(m, base + q, es[w[q]], true); }
    }
  }

  lemma {:induction false} LostTriedStand(m: map<int, AddrInfo>, base: nat, es: seq<Entry>, e: Entry, w: seq<nat>)
    requires TriedStand(m, base, es, w)
    ensures TriedStand(m, base, es + [e], w)
  {
    forall q | 0 <= q < |w|
      ensures w[q] < |es + [e]| && Stands(m, base + q, (es + [e])[w[q]], true)
    {
      assert Stands(m, base + q, es[w[q]], true);
    }
  }

  lemma {:induction false} NextTried(h: Env, s: State, base: nat, es: seq<Entry>, e: Entry, w: seq<nat>, t: State,
                                     u: State, v: seq<nat>)
    requires TriedDone(h, s, base, es, w, t) && u == LoadTried(h, t, e)
    requires v == w + if TriedKept(h, s.nKey, es + [e], |es|) then [|es|] else []
    ensures TriedDone(h, s, base, es + [e], v, u)
  {
    var slot := TriedSlotOf(h, s.nKey, e);
    if slot in t.tried {
      NextSlot(h, s.nKey, t.tried, t.tried, es, e);
      LostTriedStand(t.mapInfo, base, es, e, w);
      assert v == w;
    } else {
      var i := LoadTriedIs(h, t, e);
      NextSlot(h, s.nKey, t.tried, u.tried, es, e);
      NextTriedStand(t.mapInfo, u.mapInfo, base, es, e, w, t.nIdCount);
    }
  }

  lemma {:induction false} TriedsRead(h: Env, s: State, base: nat, es: seq<Entry>, t: State)
    requires FirstSame(s.mapInfo, s.mapInfo, base) && s.nIdCount == base && s.tried == map[]
    requires forall n :: n in s.mapInfo ==> 0 <= n < base
    requires t == LoadTrieds(h, s, es)
    ensures TriedDone(h, s, base, es, TriedRead(h, s.nKey, es), t)
    decreases |es|
  {
    if es != [] {
      var n := |es| - 1;
      var before, u := es[..n], LoadTrieds(h, s, es[..n]);
      assert before + [es[n]] == es;
      TriedsRead(h, s, base, before, u);
      NextTried(h, s, base, before, es[n], TriedRead(h, s.nKey, before), u, t, TriedRead(h, s.nKey, es));
    }
  }

  // ---------------------------------------------------------------- the references

  /** Reference counts apart, the entries are as they were. */
  ghost predicate SameButRefs(m: map<int, AddrInfo>, m': map<int, AddrInfo>) {
    m'.Keys == m.Keys && forall n :: n in m ==> n in m' && m'[n] == m[n].(nRefCount := m'[n].nRefCount)
  }

  /** An index takes a slot exactly as the file says. */
  lemma {:induction false} IndexRead(h: Env, es: seq<Entry>, s: State, t: State, bucket: nat, index: int)
    requires Loading(h, s) && NewsStand(s.mapInfo, es) && t == LoadIndex(h, s, bucket, index, |es|)
    ensures t.news == Reference(h, s.nKey, es, s.news, bucket, index) && SameButRefs(s.mapInfo, t.mapInfo) &&
            t.nKey == s.nKey
  {
    if 0 <= index < |es| {
      assert Stands(s.mapInfo, index, es[index], false);
      assert s.mapInfo[index].nRefCount == |Occ(s.news, index)|;
    }
  }

  lemma {:induction false} StillStand(m: map<int, AddrInfo>, m': map<int, AddrInfo>, es: seq<Entry>)
    requires NewsStand(m, es) && SameButRefs(m, m')
    ensures NewsStand(m', es)
  {
    forall j | 0 <= j < |es|
      ensures Stands(m', j, es[j], false)
    {
      assert Stands(m, j, es[j], false);
    }
  }

  ghost predicate RefsDone(h: Env, es: seq<Entry>, s: State, t: State, news: Table) {
    && Loading(h, t) && FirstNew(t, |es|) && NewsStand(t.mapInfo, es) && SameButRefs(s.mapInfo, t.mapInfo)
    && t.news == news && t.nKey == s.nKey
  }

  lemma {:induction false} NextIndex(h: Env, es: seq<Entry>, s: State, t: State, news: Table, bucket: nat, index: int,
                                     u: State)
    requires RefsDone(h, es, s, t, news) && u == LoadIndex(h, t, bucket, index, |es|) && bucket < NEW_BUCKET_COUNT
    ensures RefsDone(h, es, s, u, Reference(h, s.nKey, es, news, bucket, index))
  {
    IndexRead(h, es, t, u, bucket, index);
    LoadIndexKeeps(h, t, bucket, index, |es|);
    LoadIndexFirst(h, t, bucket, index, |es|);
    StillStand(t.mapInfo, u.mapInfo, es);
  }

  lemma {:induction false} BucketRead(h: Env, es: seq<Entry>, s: State, t: State, news: Table, bucket: nat,
                                      list: seq<int>, u: State)
    requires RefsDone(h, es, s, t, news) && u == LoadBucket(h, t, bucket, list, |es|) && bucket < NEW_BUCKET_COUNT
    ensures RefsDone(h, es, s, u, References(h, s.nKey, es, news, bucket, list))
    decreases |list|
  {
    if list != [] {
      var n := |list| - 1;
      var v, mid := LoadBucket(h, t, bucket, list[..n], |es|), References(h, s.nKey, es, news, bucket, list[..n]);
      BucketRead(h, es, s, t, news, bucket, list[..n], v);
      NextIndex(h, es, s, v, mid, bucket, list[n], u);
    }
  }

  lemma {:induction false} BucketsRead(h: Env, es: seq<Entry>, s: State, lists: seq<seq<int>>, u: State)
    requires RefsDone(h, es, s, s, map[]) && u == LoadBuckets(h, s, lists, |es|) && |lists| <= NEW_BUCKET_COUNT
    ensures RefsDone(h, es, s, u, AllReferences(h, s.nKey, es, lists))
    decreases |lists|
  {
    if lists != [] {
      var n := |lists| - 1;
      var v, mid := LoadBuckets(h, s, lists[..n], |es|), AllReferences(h, s.nKey, es, lists[..n]);
      BucketsRead(h, es, s, lists[..n], v);
      BucketRead(h, es, s, v, mid, n, lists[n], u);
    }
  }

  // ---------------------------------------------------------------- everything read

  /** What a file becomes, before pruning: which ids there are, of which entries, and which of them
      have no reference. */
  ghost predicate Became(h: Env, f: File, w: seq<nat>, m: map<int, AddrInfo>) {
    && NewsStand(m, f.news) && TriedStand(m, |f.news|, f.tried, w)
    && (forall n :: n in m ==> 0 <= n < |f.news| + |w|)
    && (forall j :: 0 <= j < |f.news| && j in m ==> (m[j].nRefCount == 0 <==> !NewKept(h, f, j)))
  }

  lemma {:induction false} RefsMoved(m: map<int, AddrInfo>, m': map<int, AddrInfo>, base: nat, es: seq<Entry>,
                                     w: seq<nat>)
    requires TriedStand(m, base, es, w) && SameButRefs(m, m')
    ensures TriedStand(m', base, es, w)
  {
    forall q | 0 <= q < |w|
      ensures w[q] < |es| && Stands(m', base + q, es[w[q]], true)
    {
      assert Stands(m, base + q, es[w[q]], true);
    }
  }

  lemma {:induction false} FirstStand(m: map<int, AddrInfo>, m': map<int, AddrInfo>, es: seq<Entry>)
    requires NewsStand(m, es) && FirstSame(m, m', |es|)
    ensures NewsStand(m', es)
  {
    forall j | 0 <= j < |es|
      ensures Stands(m', j, es[j], false)
    {
      assert Stands(m, j, es[j], false);
    }
  }

  /** The entries, before the buckets. */
  lemma {:induction false} EntriesRead(h: Env, f: File, w: seq<nat>, s1: State, s2: State)
    requires Readable(f) && f.nNew >= 0 && w == TriedRead(h, f.nKey, f.tried)
    requires s1 == NewsLoaded(h, f) && s2 == LoadTrieds(h, s1, f.tried)
    ensures NewsDone(h, f.nKey, f.news, Current(f), s1) && TriedDone(h, s1, |f.news|, f.tried, w, s2)
    ensures NewsStand(s2.mapInfo, f.news)
  {
    NewsLoadedRead(h, f);
    NewsRead(h, f.nKey, f.news, Current(f), s1);
    SameAsSelf(s1.mapInfo, f.news);
    TriedsRead(h, s1, |f.news|, f.tried, s2);
    FirstStand(s1.mapInfo, s2.mapInfo, f.news);
  }

  lemma {:induction false} SameAsSelf(m: map<int, AddrInfo>, es: seq<Entry>)
    requires NewsStand(m, es)
    ensures FirstSame(m, m, |es|)
  {
    forall j | 0 <= j < |es|
      ensures j in m
    {
      assert Stands(m, j, es[j], false);
    }
  }

  lemma {:induction false} NoRefs(h: Env, f: File, s: State, j: nat)
    requires Current(f) && j < |f.news| && j in s.mapInfo && Loading(h, s) && s.nKey == f.nKey
    requires s.news == AllReferences(h, f.nKey, f.news, f.buckets)
    ensures s.mapInfo[j].nRefCount == 0 <==> !NewKept(h, f, j)
  {
    assert s.mapInfo[j].nRefCount == |Occ(s.news, j)|;
  }

  lemma {:induction false} LoadedBecame(h: Env, f: File, w: seq<nat>, s: State)
    requires Readable(f) && CountsOk(f) && w == TriedRead(h, f.nKey, f.tried) && s == Loaded(h, f)
    ensures Became(h, f, w, s.mapInfo) && s.nKey == f.nKey
  {
    var s1, s2 := NewsLoaded(h, f), LoadTrieds(h, NewsLoaded(h, f), f.tried);
    var s3 := LoadEntries(h, f);
    EntriesRead(h, f, w, s1, s2);
    if Current(f) {
      LoadingSteps(h, f);
      EntriesFirst(h, f);
      BucketsRead(h, f.news, s3, f.buckets, s);
      RefsMoved(s2.mapInfo, s.mapInfo, |f.news|, f.tried, w);
      forall j | 0 <= j < |f.news| && j in s.mapInfo
        ensures s.mapInfo[j].nRefCount == 0 <==> !NewKept(h, f, j)
      {
        NoRefs(h, f, s, j);
      }
    } else {
      forall j | 0 <= j < |f.news| && j in s.mapInfo
        ensures s.mapInfo[j].nRefCount == 0 <==> !NewKept(h, f, j)
      {
        assert Referred(h, f.nKey, s1.mapInfo, f.news, j);
      }
    }
  }

  // ---------------------------------------------------------------- the outcome

  /** Pruning takes the new entries that do not stay. */
  lemma {:induction false} NewStays(h: Env, f: File, w: seq<nat>, s: State, j: nat)
    requires Became(h, f, w, s.mapInfo) && j < |f.news|
    ensures Stands(s.mapInfo, j, f.news[j], false) && s.mapInfo[j].Ip() == IpOf(f.news[j])
    ensures Prunable(s, j) <==> !NewKept(h, f, j)
  {
    assert Stands(s.mapInfo, j, f.news[j], false);
  }

  lemma {:induction false} TriedStays(h: Env, f: File, w: seq<nat>, s: State, n: int, q: int)
    requires Became(h, f, w, s.mapInfo) && 0 <= q < |w| && n == |f.news| + q
    ensures w[q] < |f.tried| && Stands(s.mapInfo, n, f.tried[w[q]], true)
    ensures s.mapInfo[n].Ip() == IpOf(f.tried[w[q]]) && !Prunable(s, n)
  {
  }

  lemma {:induction false} ApartIds(h: Env, f: File, w: seq<nat>, s: State, n: int, k: int)
    requires Became(h, f, w, s.mapInfo) && Lists(h, f.nKey, f.tried, w) && AddressesOk(h, f)
    requires n in s.mapInfo && k in s.mapInfo && n != k && !Prunable(s, n)
    ensures s.mapInfo[n].Ip() != s.mapInfo[k].Ip()
  {
    var b := |f.news|;
    if n < b { NewStays(h, f, w, s, n); } else { TriedStays(h, f, w, s, n, n - b); }
    if k < b { NewStays(h, f, w, s, k); } else { TriedStays(h, f, w, s, k, k - b); }
  }

  lemma {:induction false} AddressesApart(h: Env, f: File, w: seq<nat>, s: State)
    requires Became(h, f, w, s.mapInfo) && Lists(h, f.nKey, f.tried, w) && Apart(s)
    ensures AddressesOk(h, f)
  {
    var b := |f.news|;
    forall i, j | 0 <= i < b && 0 <= j < b && i != j && NewKept(h, f, i)
      ensures IpOf(f.news[i]) != IpOf(f.news[j])
    {
      NewStays(h, f, w, s, i);
      NewStays(h, f, w, s, j);
    }
    forall j, k | 0 <= j < b && 0 <= k < |f.tried| && TriedKept(h, f.nKey, f.tried, k)
      ensures IpOf(f.news[j]) != IpOf(f.tried[k])
    {
      var q :| 0 <= q < |w| && w[q] == k;
      NewStays(h, f, w, s, j);
      TriedStays(h, f, w, s, b + q, q);
    }
    forall k, l | 0 <= k < l < |f.tried| && TriedKept(h, f.nKey, f.tried, k) && TriedKept(h, f.nKey, f.tried, l)
      ensures IpOf(f.tried[k]) != IpOf(f.tried[l])
    {
      var p, q :| 0 <= p < |w| && w[p] == k && 0 <= q < |w| && w[q] == l;
      TriedStays(h, f, w, s, b + p, p);
      TriedStays(h, f, w, s, b + q, q);
    }
  }

  lemma {:induction false} ApartIff(h: Env, f: File, w: seq<nat>, s: State)
    requires Became(h, f, w, s.mapInfo) && Lists(h, f.nKey, f.tried, w)
    ensures Apart(s) <==> AddressesOk(h, f)
  {
    if Apart(s) { AddressesApart(h, f, w, s); }
    if AddressesOk(h, f) {
      forall n, k | n in s.mapInfo && k in s.mapInfo && n != k && !Prunable(s, n)
        ensures s.mapInfo[n].Ip() != s.mapInfo[k].Ip()
      {
        ApartIds(h, f, w, s, n, k);
      }
    }
  }

  /** The times of one entry, as Check_ wants them. */
  predicate TimesOf(i: AddrInfo) { i.nLastTry >= 0 && i.nLastSuccess >= 0 && (i.fInTried ==> i.nLastSuccess != 0) }

  lemma {:induction false} TimesIff(h: Env, f: File, w: seq<nat>, s: State, t: State)
    requires Became(h, f, w, s.mapInfo) && Lists(h, f.nKey, f.tried, w) && PrunedTo(s, t, Turns(s.nIdCount))
    requires forall n :: n in s.mapInfo ==> n < s.nIdCount
    ensures R.TimesOk(t.mapInfo) <==> SuccessesOk(h, f)
  {
    var b := |f.news|;
    if SuccessesOk(h, f) {
      forall n | n in t.mapInfo
        ensures TimesOf(t.mapInfo[n])
      {
        if n < b { NewStays(h, f, w, s, n); } else { TriedStays(h, f, w, s, n, n - b); }
      }
    }
    if R.TimesOk(t.mapInfo) { SuccessesStand(h, f, w, s, t); }
  }

  lemma {:induction false} SuccessesStand(h: Env, f: File, w: seq<nat>, s: State, t: State)
    requires Became(h, f, w, s.mapInfo) && Lists(h, f.nKey, f.tried, w) && PrunedTo(s, t, Turns(s.nIdCount))
    requires R.TimesOk(t.mapInfo)
    ensures SuccessesOk(h, f)
  {
    forall j | 0 <= j < |f.news| && NewKept(h, f, j)
      ensures f.news[j].nLastSuccess >= 0
    {
      NewStays(h, f, w, s, j);
      assert j in t.mapInfo;
    }
    forall k | 0 <= k < |f.tried| && TriedKept(h, f.nKey, f.tried, k)
      ensures f.tried[k].nLastSuccess > 0
    {
      var q :| 0 <= q < |w| && w[q] == k;
      TriedStays(h, f, w, s, |f.news| + q, q);
      assert |f.news| + q in t.mapInfo;
    }
  }

  /** What becomes of any file that can be read: the tables, counters and addresses of the manager
      are right exactly when neither count is negative and no entry that stays shares its IP address
      with another that is read; the times exactly when those of the entries that stay are. */
  lemma {:induction false} LoadedOutcome(h: Env, f: File)
    requires Readable(f)
    ensures Read(Loaded(h, f)) && forall k :: !Prunable(Pruned(Loaded(h, f)), k)
    ensures Inv(h, Pruned(Loaded(h, f))) <==> CountsOk(f) && AddressesOk(h, f)
    ensures CountsOk(f) ==> (R.TimesOk(Pruned(Loaded(h, f)).mapInfo) <==> SuccessesOk(h, f))
    ensures CountsOk(f) ==> Pruned(Loaded(h, f)).nKey == f.nKey
  {
    var s, w := Loaded(h, f), TriedRead(h, f.nKey, f.tried);
    LoadedApart(h, f);
    if CountsOk(f) {
      LoadedBecame(h, f, w, s);
      TriedReadLists(h, f.nKey, f.tried);
      ApartIff(h, f, w, s);
      PruneIs(s, Turns(s.nIdCount), Pruned(s));
      TimesIff(h, f, w, s, Pruned(s));
    }
  }

  /** Everything that Check_ looks at. */
  ghost predicate Checked(h: Env, s: State) { Inv(h, s) && R.TimesOk(s.mapInfo) && s.nKey != 0 }

  /** So the files that give a manager which passes Check_ are exactly these. */
  lemma {:induction false} Harmless(h: Env, f: File)
    requires Readable(f)
    ensures RandomOk(Loaded(h, f).mapInfo, Loaded(h, f).vRandom)
    ensures Checked(h, Pruned(Loaded(h, f))) <==> CountsOk(f) && AddressesOk(h, f) && SuccessesOk(h, f) && f.nKey != 0
  {
    LoadedOutcome(h, f);
  }

  /** No address appears twice. */
  ghost predicate Distinct(es: seq<Entry>) {
    forall j, k :: 0 <= j < k < |es| ==> IpOf(es[j]) != IpOf(es[k])
  }

  lemma {:induction false} DistinctNews(a: seq<Entry>, b: seq<Entry>, i: nat, j: nat)
    requires Distinct(a + b) && i < |a| && j < |a| && i != j
    ensures IpOf(a[i]) != IpOf(a[j])
  {
    assert (a + b)[i] == a[i] && (a + b)[j] == a[j];
  }

  lemma {:induction false} DistinctTried(a: seq<Entry>, b: seq<Entry>, i: nat, j: nat)
    requires Distinct(a + b) && i < j < |b|
    ensures IpOf(b[i]) != IpOf(b[j])
  {
    assert (a + b)[|a| + i] == b[i] && (a + b)[|a| + j] == b[j];
  }

  lemma {:induction false} DistinctBoth(a: seq<Entry>, b: seq<Entry>, i: nat, j: nat)
    requires Distinct(a + b) && i < |a| && j < |b|
    ensures IpOf(a[i]) != IpOf(b[j])
  {
    assert (a + b)[i] == a[i] && (a + b)[|a| + j] == b[j];
  }

  /** So a file whose addresses are all distinct gives a consistent manager, whatever its version and
      whatever its buckets hold. */
  lemma {:induction false} LoadedConsistent(h: Env, f: File)
    requires Readable(f) && CountsOk(f) && Distinct(f.news + f.tried)
    ensures RandomOk(Loaded(h, f).mapInfo, Loaded(h, f).vRandom) && Inv(h, Pruned(Loaded(h, f)))
  {
    LoadedOutcome(h, f);
    DistinctOk(h, f);
  }

  lemma {:induction false} DistinctOk(h: Env, f: File)
    requires Distinct(f.news + f.tried)
    ensures AddressesOk(h, f)
  {
    forall i, j | 0 <= i < |f.news| && 0 <= j < |f.news| && i != j && NewKept(h, f, i)
      ensures IpOf(f.news[i]) != IpOf(f.news[j])
    {
      DistinctNews(f.news, f.tried, i, j);
    }
    forall j, k | 0 <= j < |f.news| && 0 <= k < |f.tried|
      ensures IpOf(f.news[j]) != IpOf(f.tried[k])
    {
      DistinctBoth(f.news, f.tried, j, k);
    }
    forall k, l | 0 <= k < l < |f.tried|
      ensures IpOf(f.tried[k]) != IpOf(f.tried[l])
    {
      DistinctTried(f.news, f.tried, k, l);
    }
  }

  /** A file with one new and one tried entry of the same address, under two ports. */
  function Repeating(key: nat): File {
    var a, b := Address(Service(1, 1), 0, 0), Address(Service(1, 2), 0, 0);
    File(2, 32, key, 1, 1, BUCKETS_MARK, [Entry(a, 1, 0, 0)], [Entry(b, 1, 1, 0)], [])
  }

  /** It is read without complaint, and both entries stay; the manager is not consistent. */
  lemma {:induction false} RepeatedAddress(h: Env, key: nat)
    ensures var f := Repeating(key);
            Readable(f) && NewKept(h, f, 0) && TriedKept(h, key, f.tried, 0) && Read(Loaded(h, f)) &&
              !Inv(h, Pruned(Loaded(h, f)))
  {
    var f := Repeating(key);
    assert UBuckets(f) == 0;
    assert IpOf(f.news[0]) == IpOf(f.tried[0]);
    LoadedOutcome(h, f);
  }

  /** A stream that ends before its entries are complete leaves a manager that is not consistent,
      whatever it holds. */
  lemma {:induction false} PartialOutcome(h: Env, f: File, cut: Entry)
    requires Parsed(f) && (|f.news| < Turns(f.nNew) || |f.tried| < Turns(f.nTried))
    ensures !Inv(h, Partial(h, f, cut))
  {
    var s0, t := R.EmptyState(f.nKey), Partial(h, f, cut);
    if |f.news| < Turns(f.nNew) {
      assert |f.news| in t.mapInfo && t.mapInfo[|f.news|].nRandomPos == -1;
    } else if f.nNew >= 0 {
      R.EmptyInv(h, f.nKey);
      LimboIsUnplaced(h, s0, {});
      LoadNewsKeeps(h, s0, f.news, Current(f));
      NewsLoadedRead(h, f);
      LoadTriedsKeeps(h, NewsLoaded(h, f), f.tried);
      TriedCounts(h, NewsLoaded(h, f), f.tried);
      LoadNewsCounts(h, s0, f.news, Current(f));
    } else {
      TriedCounts(h, NewsLoaded(h, f), f.tried);
      assert t.nNew == f.nNew < 0;
    }
  }
}
