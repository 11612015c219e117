/** The address manager written to peers.dat and read back.  Only entries and the contents of the
    new buckets are written; ids, the tried table, the address index and the random order are
    made anew. */
module AddrManFile {
  import opened AddrManSpec
  import opened AddrManProofs
  import R = AddrManRuns

  const BUCKETS_MARK := 0x4000_0000

  /** The part of an entry that is written. */
  datatype Entry = Entry(addr: Address, source: nat, nLastSuccess: int, nAttempts: int)

  /** The counts are written ahead of the lists; bucket sizes are the lengths of the bucket lists. */
  datatype File = File(nVersion: int, nKeySize: int, nKey: nat, nNew: int, nTried: int, nUBuckets: int,
                       news: seq<Entry>, tried: seq<Entry>, buckets: seq<seq<int>>)

  /** How often a loop up to a count turns. */
  function Turns(count: int): nat { if count < 0 then 0 else count }

  function Written(i: AddrInfo): Entry { Entry(i.addr, i.source, i.nLastSuccess, i.nAttempts) }

  /** The number of buckets is stored with its bit 30 flipped. */
  function FlipMark(n: int): int {
    if n / BUCKETS_MARK % 2 == 1 then n - BUCKETS_MARK else n + BUCKETS_MARK
  }

  // ---------------------------------------------------------------- writing

  predicate Kept(i: AddrInfo, tried: bool) { if tried then i.fInTried else i.nRefCount != 0 }

  /** The ids below n of one of the two lists, in order. */
  function IdList(m: map<int, AddrInfo>, tried: bool, n: nat): (r: seq<int>)
    ensures forall j :: 0 <= j < |r| ==> 0 <= r[j] < n && r[j] in m && Kept(m[r[j]], tried)
    ensures forall j, k :: 0 <= j < k < |r| ==> r[j] < r[k]
  {
    if n == 0 then []
    else IdList(m, tried, n - 1) + if n - 1 in m && Kept(m[n - 1], tried) then [n - 1] else []
  }

  /** The index an id is written as: how many of the new list come before it. */
  function Index(m: map<int, AddrInfo>, n: int): int { if n < 0 then 0 else |IdList(m, false, n)| }

  function Entries(m: map<int, AddrInfo>, ids: seq<int>): (r: seq<Entry>)
    requires forall j :: 0 <= j < |ids| ==> ids[j] in m
    ensures |r| == |ids| && forall j :: 0 <= j < |ids| ==> r[j] == Written(m[ids[j]])
  {
    seq(|ids|, j requires 0 <= j < |ids| => Written(m[ids[j]]))
  }

  /** The indexes of one bucket, up to position i. */
  function BucketList(m: map<int, AddrInfo>, news: Table, bucket: nat, i: nat): seq<int> {
    if i == 0 then []
    else BucketList(m, news, bucket, i - 1) +
         if Slot(bucket, i - 1) in news then [Index(m, news[Slot(bucket, i - 1)])] else []
  }

  function BucketLists(m: map<int, AddrInfo>, news: Table, n: nat, size: nat): (r: seq<seq<int>>)
    ensures |r| == n && forall b :: 0 <= b < n ==> r[b] == BucketList(m, news, b, size)
  {
    if n == 0 then []
    else BucketLists(m, news, n - 1, size) + [BucketList(m, news, n - 1, size)]
  }

  function Dump(s: State): File
    requires 0 <= s.nIdCount
  {
    File(1, 32, s.nKey, s.nNew, s.nTried, FlipMark(NEW_BUCKET_COUNT),
         Entries(s.mapInfo, IdList(s.mapInfo, false, s.nIdCount)),
         Entries(s.mapInfo, IdList(s.mapInfo, true, s.nIdCount)),
         BucketLists(s.mapInfo, s.news, NEW_BUCKET_COUNT, BUCKET_SIZE))
  }

  // ---------------------------------------------------------------- reading

  function UBuckets(f: File): int { if f.nVersion != 0 then FlipMark(f.nUBuckets) else f.nUBuckets }

  /** Whether the contents of the new buckets can be used. */
  predicate Current(f: File) { f.nVersion == 1 && UBuckets(f) == NEW_BUCKET_COUNT }

  function Created(s: State, e: Entry): State {
    var t := Create(s, e.addr, e.source);
    SetInfo(t, s.nIdCount, t.mapInfo[s.nIdCount].(nLastSuccess := e.nLastSuccess, nAttempts := e.nAttempts))
  }

  /** An entry of the new list; with its home slot at once, if the buckets cannot be used. */
  function LoadNew(h: Env, s: State, e: Entry, current: bool): State {
    var t := Created(s, e).(nNew := s.nNew + 1);
    var slot := NewSlot(h, s.nKey, e.addr.service, e.source);
    if current || slot in t.news then t else PlaceNew(t, s.nIdCount, slot)
  }

  function LoadNews(h: Env, s: State, es: seq<Entry>, current: bool): State {
    if es == [] then s else LoadNew(h, LoadNews(h, s, es[..|es| - 1], current), es[|es| - 1], current)
  }

  /** An entry of the tried list; lost, if its slot is taken.  Id -1, which comes up when the count
      of new entries is negative, is the mark of a free slot. */
  function LoadTried(h: Env, s: State, e: Entry): State {
    var slot := TriedSlot(h, s.nKey, e.addr.service);
    if slot in s.tried then s
    else
      var t := PlaceTried(Created(s, e), s.nIdCount, slot);
      if s.nIdCount == -1 then t.(tried := s.tried) else t
  }

  function LoadTrieds(h: Env, s: State, es: seq<Entry>): State {
    if es == [] then s else LoadTried(h, LoadTrieds(h, s, es[..|es| - 1]), es[|es| - 1])
  }

  /** An index in the list of a bucket: a reference to one of the first `count` entries. */
  function LoadIndex(h: Env, s: State, bucket: nat, index: int, count: nat): State {
    if 0 <= index < count && index in s.mapInfo then
      var i := s.mapInfo[index];
      var slot := NewSlotIn(h, s.nKey, bucket, i.addr.service);
      if slot !in s.news && i.nRefCount < NEW_BUCKETS_PER_ADDRESS then PlaceNew(s, index, slot) else s
    else s
  }

  function LoadBucket(h: Env, s: State, bucket: nat, list: seq<int>, count: nat): State {
    if list == [] then s
    else LoadIndex(h, LoadBucket(h, s, bucket, list[..|list| - 1], count), bucket, list[|list| - 1], count)
  }

  function LoadBuckets(h: Env, s: State, lists: seq<seq<int>>, count: nat): State {
    if lists == [] then s
    else
      var n := |lists| - 1;
      LoadBucket(h, LoadBuckets(h, s, lists[..n], count), n, lists[n], count)
  }

  predicate Prunable(s: State, n: int) {
    n in s.mapInfo && !s.mapInfo[n].fInTried && s.mapInfo[n].nRefCount == 0
  }

  lemma DeleteRandomOk(s: State, n: int)
    requires n in s.mapInfo && RandomOk(s.mapInfo, s.vRandom)
    ensures RandomOk(Delete(s, n).mapInfo, Delete(s, n).vRandom)
  {
    SwapRandomOk(s, s.mapInfo[n].nRandomPos, |s.vRandom| - 1);
    var t := DeleteIsDrop(s, n);
    RandomOkRemove(t.mapInfo, t.vRandom, n);
  }

  /** Drop the entries below id n that got no reference. */
  function Prune(s: State, n: nat): (r: State)
    requires RandomOk(s.mapInfo, s.vRandom)
    ensures RandomOk(r.mapInfo, r.vRandom)
  {
    if n == 0 then s else PruneOne(Prune(s, n - 1), n - 1)
  }

  function PruneOne(s: State, n: int): (r: State)
    requires RandomOk(s.mapInfo, s.vRandom)
    ensures RandomOk(r.mapInfo, r.vRandom)
  {
    if Prunable(s, n) then DeleteRandomOk(s, n); Delete(s, n) else s
  }

  function Pruned(s: State): State
    requires RandomOk(s.mapInfo, s.vRandom)
  {
    Prune(s, Turns(s.nIdCount))
  }

  /** The entries read, before the buckets.  The counters are those of the file, less what was lost. */
  function LoadEntries(h: Env, f: File): State {
    var s1 := LoadNews(h, R.EmptyState(f.nKey), f.news, Current(f)).(nIdCount := f.nNew, nNew := f.nNew);
    var s2 := LoadTrieds(h, s1, f.tried);
    s2.(nTried := f.nTried - (|f.tried| - s2.nTried))
  }

  /** Everything but the last step, on an object that was emptied when it was new. */
  function Loaded(h: Env, f: File): State {
    var s := LoadEntries(h, f);
    if Current(f) then LoadBuckets(h, s, f.buckets, |f.news|) else s
  }

  /** What a stream must hold to be read to its end: the right key size, and as much as it announces. */
  predicate Readable(f: File) {
    && f.nKeySize == 32 && |f.news| == Turns(f.nNew) && |f.tried| == Turns(f.nTried)
    && |f.buckets| == Turns(UBuckets(f))
  }

  /** What there is of the entry that a stream ends in; it has no place in the random order yet. */
  function Cut(e: Entry): AddrInfo { AddrInfo(e.addr, e.source, e.nLastSuccess, 0, e.nAttempts, 0, false, -1) }

  /** What a stream that ends early leaves: what it holds, the counters as it announces them, and in the
      new list the entry it ends in. Nothing is pruned. */
  function Partial(h: Env, f: File, cut: Entry): State {
    var s := LoadNews(h, R.EmptyState(f.nKey), f.news, Current(f));
    if |f.news| < Turns(f.nNew) then
      s.(nIdCount := 0, nNew := f.nNew, nTried := f.nTried, mapInfo := s.mapInfo[|f.news| := Cut(cut)])
    else if |f.tried| < Turns(f.nTried) then
      LoadTrieds(h, s.(nIdCount := f.nNew, nNew := f.nNew), f.tried).(nTried := f.nTried)
    else Loaded(h, f)
  }

  /** Any stream, read as far as it goes: no list is longer than it announces. */
  predicate Parsed(f: File) {
    |f.news| <= Turns(f.nNew) && |f.tried| <= Turns(f.nTried) && |f.buckets| <= Turns(UBuckets(f))
  }
}
