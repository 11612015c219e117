/** What a manager read from any file holds: entry by entry and slot by slot. */
module AddrManContents {
  import opened AddrManSpec
  import opened AddrManProofs
  import opened AddrManFile
  import opened AddrManLoad
  import opened AddrManOutcome

  /** The bucket lists of a file are used when its version is 1 and it announces 1024 buckets, with bit 30
      of the number flipped. */
  lemma CurrentIs(f: File)
    ensures Current(f) <==> f.nVersion == 1 && f.nUBuckets == 0x4000_0400
    ensures f.nVersion == 0 ==> UBuckets(f) == f.nUBuckets
    ensures f.nVersion != 0 && 0 <= f.nUBuckets < 0x8000_0000 ==>
              UBuckets(f) == if f.nUBuckets < 0x4000_0000 then f.nUBuckets + 0x4000_0000 else f.nUBuckets - 0x4000_0000
  {
  }

  /** What is written ahead of the entries. */
  lemma DumpHeader(s: State)
    requires s.nIdCount >= 0
    ensures var f := Dump(s);
            && f.nVersion == 1 && f.nKeySize == 32 && f.nUBuckets == 0x4000_0400 && |f.buckets| == 1024
            && f.nKey == s.nKey && f.nNew == s.nNew && f.nTried == s.nTried
  {
  }

  // ---------------------------------------------------------------- pruning and the tables

  lemma DeleteTables(s: State, n: int)
    requires n in s.mapInfo && RandomOk(s.mapInfo, s.vRandom)
    ensures Delete(s, n).news == s.news && Delete(s, n).tried == s.tried && Delete(s, n).nIdCount == s.nIdCount
  {
  }

  lemma {:induction false} PruneTables(s: State, n: nat)
    requires RandomOk(s.mapInfo, s.vRandom)
    ensures Prune(s, n).news == s.news && Prune(s, n).tried == s.tried && Prune(s, n).nIdCount == s.nIdCount
  {
    if n > 0 {
      PruneTables(s, n - 1);
      PruneOneTables(Prune(s, n - 1), n - 1);
    }
  }

  lemma PruneOneTables(s: State, n: int)
    requires RandomOk(s.mapInfo, s.vRandom)
    ensures PruneOne(s, n).news == s.news && PruneOne(s, n).tried == s.tried && PruneOne(s, n).nIdCount == s.nIdCount
  {
    if Prunable(s, n) { DeleteTables(s, n); }
  }

  // ---------------------------------------------------------------- home slots

  /** Each slot is held by the first entry whose home it is. */
  ghost predicate FirstHolds(h: Env, key: nat, es: seq<Entry>, t: Table) {
    forall slot :: slot in t ==> IsFirst(h, key, es, t[slot], slot)
  }

  predicate IsFirst(h: Env, key: nat, es: seq<Entry>, j: int, slot: Slot) {
    0 <= j < |es| && HomeOf(h, key, es[j]) == slot && HomeFree(h, key, es, j)
  }

  lemma {:induction false} StillFirst(h: Env, key: nat, es: seq<Entry>, e: Entry, j: int, slot: Slot)
    requires IsFirst(h, key, es, j, slot)
    ensures IsFirst(h, key, es + [e], j, slot)
  {
    assert forall i :: 0 <= i <= j ==> (es + [e])[i] == es[i];
  }

  lemma {:induction false} NextHolds(h: Env, key: nat, es: seq<Entry>, e: Entry, t: Table, home: Slot)
    requires FirstHolds(h, key, es, t) && home == HomeOf(h, key, e)
    requires home !in t ==> HomeFree(h, key, es + [e], |es|)
    ensures FirstHolds(h, key, es + [e], if home in t then t else t[home := |es|])
  {
    StillHolds(h, key, es, e, t);
    if home !in t {
      NowFirst(h, key, es, e);
      PutHolds(h, key, es + [e], t, home, |es|);
    }
  }

  lemma {:induction false} StillHolds(h: Env, key: nat, es: seq<Entry>, e: Entry, t: Table)
    requires FirstHolds(h, key, es, t)
    ensures FirstHolds(h, key, es + [e], t)
  {
    forall slot | slot in t
      ensures IsFirst(h, key, es + [e], t[slot], slot)
    {
      StillFirst(h, key, es, e, t[slot], slot);
    }
  }

  lemma {:induction false} PutHolds(h: Env, key: nat, es: seq<Entry>, t: Table, slot: Slot, j: int)
    requires FirstHolds(h, key, es, t) && IsFirst(h, key, es, j, slot)
    ensures FirstHolds(h, key, es, t[slot := j])
  {
  }

  lemma {:induction false} NowFirst(h: Env, key: nat, es: seq<Entry>, e: Entry)
    requires HomeFree(h, key, es + [e], |es|)
    ensures IsFirst(h, key, es + [e], |es|, HomeOf(h, key, e))
  {
    LastOf(es, e);
  }

  lemma {:induction false} LastOf<T>(s: seq<T>, x: T)
    ensures (s + [x])[|s|] == x
  {
  }

  lemma {:induction false} Snoc<T>(s: seq<T>)
    requires s != []
    ensures s[..|s| - 1] + [s[|s| - 1]] == s
  {
  }

  lemma {:induction false} FreeWhen(h: Env, key: nat, t: Table, es: seq<Entry>, e: Entry)
    requires HomesTaken(h, key, t, es) && HomeOf(h, key, e) !in t
    ensures HomeFree(h, key, es + [e], |es|)
  {
    LastOf(es, e);
    forall i | 0 <= i < |es| ensures HomeOf(h, key, (es + [e])[i]) != HomeOf(h, key, e) {
      BeforeLast(es, e, i);
    }
  }

  lemma {:induction false} BeforeLast<T>(s: seq<T>, x: T, i: nat)
    requires i < |s|
    ensures (s + [x])[i] == s[i]
  {
  }

  lemma {:induction false} NewHolds(h: Env, key: nat, es: seq<Entry>, e: Entry, s: State, t: State)
    requires NewsDone(h, key, es, false, s) && FirstHolds(h, key, es, s.news) && t == LoadNew(h, s, e, false)
    ensures FirstHolds(h, key, es + [e], t.news)
  {
    var i := LoadNewIs(h, s, e, false);
    if HomeOf(h, key, e) !in s.news { FreeWhen(h, key, s.news, es, e); }
    NextHolds(h, key, es, e, s.news, HomeOf(h, key, e));
  }

  lemma {:induction false} NewsHold(h: Env, key: nat, es: seq<Entry>, t: State)
    requires t == LoadNews(h, R.EmptyState(key), es, false)
    ensures FirstHolds(h, key, es, t.news)
    decreases |es|
  {
    if es != [] {
      var n := |es| - 1;
      var u := LoadNews(h, R.EmptyState(key), es[..n], false);
      NewsHold(h, key, es[..n], u);
      NewsRead(h, key, es[..n], false, u);
      NewHolds(h, key, es[..n], es[n], u, t);
      Snoc(es);
    }
  }

  /** What the file says of the new table: the slots its bucket lists hand out or, where they cannot be used,
      its home slot for each entry that finds that free. */
  ghost predicate NewTableIs(h: Env, f: File, t: Table) {
    if Current(f) then t == AllReferences(h, f.nKey, f.news, f.buckets)
    else
      && FirstHolds(h, f.nKey, f.news, t)
      && forall j :: 0 <= j < |f.news| ==> HomeOf(h, f.nKey, f.news[j]) in t
  }

  lemma {:induction false} TableRead(h: Env, f: File)
    requires Readable(f) && AddrManOutcome.CountsOk(f)
    ensures NewTableIs(h, f, Loaded(h, f).news)
  {
    var w := TriedRead(h, f.nKey, f.tried);
    var s1, s3 := NewsLoaded(h, f), LoadEntries(h, f);
    EntriesRead(h, f, w, s1, LoadTrieds(h, s1, f.tried));
    NewsLoadedRead(h, f);
    if Current(f) {
      LoadingSteps(h, f);
      EntriesFirst(h, f);
      BucketsRead(h, f.news, s3, f.buckets, Loaded(h, f));
    } else {
      NewsHold(h, f.nKey, f.news, s1);
    }
  }

  // ---------------------------------------------------------------- the contents

  /** The entry with id n: of the new list, those that stay have the ids of their places; after all of that list
      come the tried entries that are read, in order. */
  ghost predicate HoldsAt(h: Env, f: File, w: seq<nat>, m: map<int, AddrInfo>, n: int) {
    if 0 <= n < |f.news| && NewKept(h, f, n) then Stands(m, n, f.news[n], false)
    else if |f.news| <= n < |f.news| + |w| && w[n - |f.news|] < |f.tried|
    then Stands(m, n, f.tried[w[n - |f.news|]], true)
    else n !in m
  }

  lemma {:induction false} HeldAt(h: Env, f: File, w: seq<nat>, s: State, t: State, n: int)
    requires Became(h, f, w, s.mapInfo) && Lists(h, f.nKey, f.tried, w) && PrunedTo(s, t, Turns(s.nIdCount))
    requires forall k :: k in s.mapInfo ==> k < s.nIdCount
    ensures HoldsAt(h, f, w, t.mapInfo, n)
  {
    if 0 <= n < |f.news| {
      NewStays(h, f, w, s, n);
    } else if |f.news| <= n < |f.news| + |w| {
      TriedStays(h, f, w, s, n, n - |f.news|);
    }
  }

  /** What any file with counts that are not negative becomes: its key, exactly the entries that stay with what
      was written of them, the new table that it says, and tables, counters and order that fit them. */
  lemma {:induction false} LoadedContents(h: Env, f: File, n: int)
    requires Readable(f) && AddrManOutcome.CountsOk(f)
    ensures Read(Loaded(h, f))
    ensures var t := Pruned(Loaded(h, f));
            && t.nKey == f.nKey && CoreG(h, t, {}, 0)
            && HoldsAt(h, f, TriedRead(h, f.nKey, f.tried), t.mapInfo, n)
            && NewTableIs(h, f, t.news)
    ensures Lists(h, f.nKey, f.tried, TriedRead(h, f.nKey, f.tried))
  {
    var s, w := Loaded(h, f), TriedRead(h, f.nKey, f.tried);
    LoadedRead(h, f);
    LoadedBecame(h, f, w, s);
    TriedReadLists(h, f.nKey, f.tried);
    LoadingSteps(h, f);
    PrunedCore(h, s);
    PruneIs(s, Turns(s.nIdCount), Pruned(s));
    PruneTables(s, Turns(s.nIdCount));
    HeldAt(h, f, w, s, Pruned(s), n);
    TableRead(h, f);
  }
}
