/** Each step of the address manager keeps the whole consistency condition. */
module AddrManProofs {
  import opened AddrManSpec

  lemma OccRemove(t: Table, s: Slot, n: int)
    requires s in t
    ensures Occ(t - {s}, n) == Occ(t, n) - {s}
    ensures |Occ(t - {s}, n)| == |Occ(t, n)| - (if t[s] == n then 1 else 0)
  {
  }

  lemma OccAdd(t: Table, s: Slot, x: int, n: int)
    requires s !in t
    ensures Occ(t[s := x], n) == Occ(t, n) + (if x == n then {s} else {})
    ensures |Occ(t[s := x], n)| == |Occ(t, n)| + (if x == n then 1 else 0)
  {
  }

  lemma RandomOkAdd(m: map<int, AddrInfo>, v: seq<int>, n: int, i: AddrInfo)
    requires RandomOk(m, v) && n !in m && i.nRandomPos == |v|
    ensures RandomOk(m[n := i], v + [n])
  {
  }

  lemma AddrOkAdd(m: map<int, AddrInfo>, a: map<nat, int>, n: int, i: AddrInfo)
    requires AddrOk(m, a) && n !in m && i.Ip() !in a
    ensures AddrOk(m[n := i], a[i.Ip() := n])
  {
  }

  lemma AddrOkSet(m: map<int, AddrInfo>, a: map<nat, int>, n: int, i: AddrInfo)
    requires AddrOk(m, a) && n in m && i.Ip() == m[n].Ip()
    ensures AddrOk(m[n := i], a)
  {
  }

  lemma CreateKeepsBase(h: Env, s: State, addr: Address, source: nat)
    requires CoreOk(h, s)
    ensures CoreOk(h, Create(s, addr, source))
  {
    var i := FreshInfo(addr, source, |s.vRandom|);
    RandomOkAdd(s.mapInfo, s.vRandom, s.nIdCount, i);
    assert TriedIds(s.mapInfo[s.nIdCount := i]) == TriedIds(s.mapInfo);
  }

  lemma NewOkAdd(h: Env, key: nat, m: map<int, AddrInfo>, t: Table, limbo: set<int>, n: int, i: AddrInfo)
    requires NewOk(h, key, m, t, limbo) && n !in m && i.nRefCount == 0 && !i.fInTried
    ensures NewOk(h, key, m[n := i], t, limbo + {n})
  {
  }

  lemma CreateKeepsCore(h: Env, s: State, addr: Address, source: nat, limbo: set<int>, d: int)
    requires CoreG(h, s, limbo, d)
    ensures CoreG(h, Create(s, addr, source), limbo + {s.nIdCount}, d + 1)
  {
    CreateKeepsBase(h, s, addr, source);
    NewOkAdd(h, s.nKey, s.mapInfo, s.news, limbo, s.nIdCount, FreshInfo(addr, source, |s.vRandom|));
    assert NewIds(Create(s, addr, source).mapInfo) == NewIds(s.mapInfo) + {s.nIdCount};
  }

  lemma CreateKeeps(h: Env, s: State, addr: Address, source: nat, limbo: set<int>, d: int)
    requires InvG(h, s, limbo, d) && addr.service.ip !in s.mapAddr
    ensures InvG(h, Create(s, addr, source), limbo + {s.nIdCount}, d + 1)
  {
    CreateKeepsCore(h, s, addr, source, limbo, d);
    AddrOkAdd(s.mapInfo, s.mapAddr, s.nIdCount, FreshInfo(addr, source, |s.vRandom|));
  }

  lemma SwapRandomOk(s: State, i: nat, j: nat)
    requires i < |s.vRandom| && j < |s.vRandom| && RandomOk(s.mapInfo, s.vRandom)
    ensures RandomOk(SwapRandom(s, i, j).mapInfo, SwapRandom(s, i, j).vRandom)
  {
  }

  /** Entries differ only in their position in vRandom. */
  ghost predicate SameButPos(m: map<int, AddrInfo>, m': map<int, AddrInfo>) {
    && m.Keys == m'.Keys
    && forall n {:trigger m[n]} {:trigger m'[n]} :: n in m ==> m'[n] == m[n].(nRandomPos := m'[n].nRandomPos)
  }

  lemma SameEntry(m: map<int, AddrInfo>, m': map<int, AddrInfo>, n: int)
    requires SameButPos(m, m') && n in m
    ensures n in m' && m'[n] == m[n].(nRandomPos := m'[n].nRandomPos)
  {
  }

  lemma SameButPosIds(m: map<int, AddrInfo>, m': map<int, AddrInfo>)
    requires SameButPos(m, m')
    ensures NewIds(m) == NewIds(m') && TriedIds(m) == TriedIds(m')
  {
    assert forall n :: n in m ==> m[n].fInTried == m'[n].fInTried;
  }

  lemma SameButPosAddr(m: map<int, AddrInfo>, m': map<int, AddrInfo>, a: map<nat, int>)
    requires SameButPos(m, m') && AddrOk(m, a)
    ensures AddrOk(m', a)
  {
    forall ip | ip in a ensures a[ip] in m' && m'[a[ip]].Ip() == ip {
      SameEntry(m, m', a[ip]);
    }
    forall n | n in m' ensures m'[n].Ip() in a && a[m'[n].Ip()] == n {
      SameEntry(m, m', n);
    }
  }

  lemma SameButPosKeeps(h: Env, s: State, m: map<int, AddrInfo>, v: seq<int>, limbo: set<int>, d: int)
    requires CoreG(h, s, limbo, d)
    requires SameButPos(s.mapInfo, m) && RandomOk(m, v)
    ensures CoreG(h, s.(mapInfo := m, vRandom := v), limbo, d)
  {
    SameButPosIds(s.mapInfo, m);
    forall x | x in s.tried
      ensures s.tried[x] in m && m[s.tried[x]].fInTried && x == TriedSlot(h, s.nKey, m[s.tried[x]].addr.service)
    {
      SameEntry(s.mapInfo, m, s.tried[x]);
    }
    forall x | x in s.news ensures NewSlotOk(h, s.nKey, m, s.news, x) {
      assert NewSlotOk(h, s.nKey, s.mapInfo, s.news, x);
      SameEntry(s.mapInfo, m, s.news[x]);
    }
  }

  lemma SwapRandomKeeps(h: Env, s: State, i: nat, j: nat, limbo: set<int>, d: int)
    requires CoreG(h, s, limbo, d) && i < |s.vRandom| && j < |s.vRandom|
    ensures CoreG(h, SwapRandom(s, i, j), limbo, d)
  {
    SwapRandomOk(s, i, j);
    var t := SwapRandom(s, i, j);
    SameButPosKeeps(h, s, t.mapInfo, t.vRandom, limbo, d);
  }

  lemma RandomOkRemove(m: map<int, AddrInfo>, v: seq<int>, n: int)
    requires RandomOk(m, v) && n in m && m[n].nRandomPos == |v| - 1
    ensures RandomOk(m - {n}, v[..|v| - 1])
  {
  }

  lemma AddrOkRemove(m: map<int, AddrInfo>, a: map<nat, int>, n: int)
    requires AddrOk(m, a) && n in m
    ensures AddrOk(m - {n}, a - {m[n].Ip()})
  {
  }

  function DropLast(s: State, n: int): State
    requires n in s.mapInfo && s.vRandom != []
  {
    s.(vRandom := s.vRandom[..|s.vRandom| - 1], mapAddr := s.mapAddr - {s.mapInfo[n].Ip()},
       mapInfo := s.mapInfo - {n}, nNew := s.nNew - 1)
  }

  lemma DropLastKeepsBase(h: Env, s: State, n: int)
    requires CoreOk(h, s) && n in s.mapInfo && !s.mapInfo[n].fInTried && s.mapInfo[n].nRandomPos == |s.vRandom| - 1
    ensures CoreOk(h, DropLast(s, n))
  {
    RandomOkRemove(s.mapInfo, s.vRandom, n);
    assert TriedIds(s.mapInfo - {n}) == TriedIds(s.mapInfo);
  }

  lemma DropLastKeeps(h: Env, s: State, n: int, limbo: set<int>, d: int)
    requires CoreG(h, s, limbo, d) && n in limbo && s.mapInfo[n].nRandomPos == |s.vRandom| - 1
    ensures CoreG(h, DropLast(s, n), limbo - {n}, d)
  {
    assert n in NewIds(s.mapInfo);
    DropLastKeepsBase(h, s, n);
    assert NewIds(s.mapInfo - {n}) == NewIds(s.mapInfo) - {n};
    NewOkRemove(h, s.nKey, s.mapInfo, s.news, n, limbo);
  }

  lemma NewOkRemove(h: Env, key: nat, m: map<int, AddrInfo>, t: Table, n: int, limbo: set<int>)
    requires NewOk(h, key, m, t, limbo) && n in limbo
    ensures NewOk(h, key, m - {n}, t, limbo - {n})
  {
    assert n in NewIds(m);
    assert Occ(t, n) == {};
    forall x | x in t ensures NewSlotOk(h, key, m - {n}, t, x) {
      assert NewSlotOk(h, key, m, t, x);
      assert t[x] == n ==> x in Occ(t, n);
    }
    assert limbo - {n} <= NewIds(m - {n});
  }

  lemma DeleteKeepsCore(h: Env, s: State, n: int, limbo: set<int>, d: int)
    requires CoreG(h, s, limbo, d) && n in limbo
    ensures CoreG(h, Delete(s, n), limbo - {n}, d)
  {
    assert n in s.mapInfo by { assert n in NewIds(s.mapInfo); }
    var t := DeleteIsDrop(s, n);
    SwapRandomKeeps(h, s, s.mapInfo[n].nRandomPos, |s.vRandom| - 1, limbo, d);
    DropLastKeeps(h, t, n, limbo, d);
  }

  lemma DeleteIsDrop(s: State, n: int) returns (t: State)
    requires n in s.mapInfo && RandomOk(s.mapInfo, s.vRandom)
    ensures t == SwapRandom(s, s.mapInfo[n].nRandomPos, |s.vRandom| - 1)
    ensures t.vRandom != [] && n in t.mapInfo && t.mapInfo[n].nRandomPos == |t.vRandom| - 1
    ensures t.mapInfo[n].Ip() == s.mapInfo[n].Ip() && t.mapAddr == s.mapAddr && Delete(s, n) == DropLast(t, n)
  {
    t := SwapRandom(s, s.mapInfo[n].nRandomPos, |s.vRandom| - 1);
  }

  lemma SwapRandomSame(s: State, i: nat, j: nat)
    requires i < |s.vRandom| && j < |s.vRandom| && RandomOk(s.mapInfo, s.vRandom)
    ensures SameButPos(s.mapInfo, SwapRandom(s, i, j).mapInfo) && SwapRandom(s, i, j).mapAddr == s.mapAddr
  {
  }

  lemma DeleteAddr(s: State, n: int)
    requires n in s.mapInfo && RandomOk(s.mapInfo, s.vRandom) && AddrOk(s.mapInfo, s.mapAddr)
    ensures AddrOk(Delete(s, n).mapInfo, Delete(s, n).mapAddr)
  {
    var t := DeleteIsDrop(s, n);
    SwapRandomSame(s, s.mapInfo[n].nRandomPos, |s.vRandom| - 1);
    SameButPosAddr(s.mapInfo, t.mapInfo, s.mapAddr);
    AddrOkRemove(t.mapInfo, t.mapAddr, n);
  }

  lemma DeleteKeeps(h: Env, s: State, n: int, limbo: set<int>, d: int)
    requires InvG(h, s, limbo, d) && n in limbo
    ensures InvG(h, Delete(s, n), limbo - {n}, d)
  {
    DeleteKeepsCore(h, s, n, limbo, d);
    assert n in s.mapInfo by { assert n in NewIds(s.mapInfo); }
    DeleteAddr(s, n);
  }

  lemma RefCountKeepsBase(h: Env, s: State, n: int, k: int, news: Table)
    requires CoreOk(h, s) && n in s.mapInfo
    ensures CoreOk(h, SetInfo(s, n, s.mapInfo[n].(nRefCount := k)).(news := news))
    ensures NewIds(SetInfo(s, n, s.mapInfo[n].(nRefCount := k)).mapInfo) == NewIds(s.mapInfo)
  {
    var t := SetInfo(s, n, s.mapInfo[n].(nRefCount := k)).(news := news);
    assert TriedIds(t.mapInfo) == TriedIds(s.mapInfo);
  }

  /** Dropping one reference: the id is in limbo when it was the last. */
  lemma DropRefKeeps(h: Env, s: State, slot: Slot, limbo: set<int>, d: int)
    requires InvG(h, s, limbo, d) && slot in s.news
    ensures var n := s.news[slot];
            var i := s.mapInfo[n];
            var t := SetInfo(s, n, i.(nRefCount := i.nRefCount - 1)).(news := s.news - {slot});
            && i.nRefCount > 0
            && InvG(h, t, if i.nRefCount == 1 then limbo + {n} else limbo, d)
  {
    var n := s.news[slot];
    var i := s.mapInfo[n];
    var t := SetInfo(s, n, i.(nRefCount := i.nRefCount - 1)).(news := s.news - {slot});
    assert NewSlotOk(h, s.nKey, s.mapInfo, s.news, slot);
    RefCountKeepsBase(h, s, n, i.nRefCount - 1, s.news - {slot});
    AddrOkSet(s.mapInfo, s.mapAddr, n, i.(nRefCount := i.nRefCount - 1));
    NewOkDrop(h, s.nKey, s.mapInfo, s.news, slot, limbo);
  }

  lemma NewOkDrop(h: Env, key: nat, m: map<int, AddrInfo>, t: Table, slot: Slot, limbo: set<int>)
    requires NewOk(h, key, m, t, limbo) && slot in t && t[slot] in m
    ensures var n := t[slot];
            var i := m[n];
            && i.nRefCount > 0
            && NewOk(h, key, m[n := i.(nRefCount := i.nRefCount - 1)], t - {slot},
                     if i.nRefCount == 1 then limbo + {n} else limbo)
  {
    var n := t[slot];
    var i := m[n];
    var m' := m[n := i.(nRefCount := i.nRefCount - 1)];
    assert NewIds(m') == NewIds(m);
    NewSlotsDrop(h, key, m, t, slot, m');
    RefCountsDrop(m, t, slot, m');
  }

  lemma RefCountsDrop(m: map<int, AddrInfo>, t: Table, slot: Slot, m': map<int, AddrInfo>)
    requires forall k :: k in m ==> m[k].nRefCount == |Occ(t, k)|
    requires slot in t && t[slot] in m && m' == m[t[slot] := m[t[slot]].(nRefCount := m[t[slot]].nRefCount - 1)]
    ensures m[t[slot]].nRefCount > 0
    ensures forall k :: k in m' ==> m'[k].nRefCount == |Occ(t - {slot}, k)| <= m[k].nRefCount
  {
    assert slot in Occ(t, t[slot]);
    forall k | k in m ensures m'[k].nRefCount == |Occ(t - {slot}, k)| <= m[k].nRefCount {
      OccRemove(t, slot, k);
    }
  }

  lemma NewSlotsDrop(h: Env, key: nat, m: map<int, AddrInfo>, t: Table, slot: Slot, m': map<int, AddrInfo>)
    requires forall x :: x in t ==> NewSlotOk(h, key, m, t, x)
    requires slot in t && t[slot] in m && m' == m[t[slot] := m[t[slot]].(nRefCount := m[t[slot]].nRefCount - 1)]
    ensures forall x :: x in t - {slot} ==> NewSlotOk(h, key, m', t - {slot}, x)
    ensures !m[t[slot]].fInTried
  {
    assert NewSlotOk(h, key, m, t, slot);
    forall x | x in t - {slot} ensures NewSlotOk(h, key, m', t - {slot}, x) {
      assert NewSlotOk(h, key, m, t, x);
    }
  }

  lemma ClearNewKeeps(h: Env, s: State, slot: Slot, limbo: set<int>, d: int)
    requires InvG(h, s, limbo, d)
    requires slot in s.news ==> s.news[slot] in s.mapInfo
    ensures InvG(h, ClearNew(s, slot), limbo, d)
    ensures slot !in ClearNew(s, slot).news
  {
    if slot in s.news {
      DropRefKeeps(h, s, slot, limbo, d);
      var n := s.news[slot];
      var i := s.mapInfo[n];
      if i.nRefCount == 1 {
        var t := SetInfo(s, n, i.(nRefCount := 0)).(news := s.news - {slot});
        DeleteKeeps(h, t, n, limbo + {n}, d);
        assert limbo + {n} - {n} == limbo;
      }
    }
  }

  lemma DeleteFrame(s: State, n: int, k: int)
    requires RandomOk(s.mapInfo, s.vRandom) && n in s.mapInfo && k in s.mapInfo
    ensures var t := Delete(s, n);
            && t == s.(mapInfo := t.mapInfo, mapAddr := t.mapAddr, vRandom := t.vRandom, nNew := s.nNew - 1)
            && (k in t.mapInfo <==> k != n)
            && (k != n ==> t.mapInfo[k] == s.mapInfo[k].(nRandomPos := t.mapInfo[k].nRandomPos))
  {
  }

  /** What ClearNew leaves alone: every entry but the one whose last reference it
      drops survives, with its own reference count unless it loses one here. */
  lemma ClearNewFrame(h: Env, s: State, slot: Slot, limbo: set<int>, d: int, k: int)
    requires InvG(h, s, limbo, d) && k in s.mapInfo
    requires slot in s.news ==> s.news[slot] in s.mapInfo
    ensures var c := ClearNew(s, slot);
            var hit := slot in s.news && s.news[slot] == k;
            && c.news == s.news - {slot} && c.tried == s.tried && c.nTried == s.nTried
            && c.nKey == s.nKey && c.nIdCount == s.nIdCount
            && (k in c.mapInfo <==> !(hit && s.mapInfo[k].nRefCount == 1))
            && (k in c.mapInfo ==> c.mapInfo[k] == s.mapInfo[k].(
                  nRefCount := s.mapInfo[k].nRefCount - (if hit then 1 else 0),
                  nRandomPos := c.mapInfo[k].nRandomPos))
  {
    if slot in s.news {
      DropRefKeeps(h, s, slot, limbo, d);
      var n := s.news[slot];
      var i := s.mapInfo[n];
      var t := SetInfo(s, n, i.(nRefCount := i.nRefCount - 1)).(news := s.news - {slot});
      if i.nRefCount == 1 {
        DeleteFrame(t, n, k);
      }
    }
  }

  lemma EraseNewKeeps(h: Env, s: State, n: int)
    requires Inv(h, s) && n in s.mapInfo && !s.mapInfo[n].fInTried
    ensures InvG(h, EraseNew(s, n).(nNew := s.nNew - 1), {n}, 1)
  {
    RefCountKeepsBase(h, s, n, 0, s.news - Occ(s.news, n));
    AddrOkSet(s.mapInfo, s.mapAddr, n, s.mapInfo[n].(nRefCount := 0));
    NewOkErase(h, s.nKey, s.mapInfo, s.news, n);
  }

  lemma NewOkErase(h: Env, key: nat, m: map<int, AddrInfo>, t: Table, n: int)
    requires NewOk(h, key, m, t, {}) && n in m && !m[n].fInTried
    ensures NewOk(h, key, m[n := m[n].(nRefCount := 0)], t - Occ(t, n), {n})
  {
    var m' := m[n := m[n].(nRefCount := 0)];
    var t' := t - Occ(t, n);
    forall x | x in t' ensures NewSlotOk(h, key, m', t', x) {
      assert NewSlotOk(h, key, m, t, x);
    }
    forall k | k in m ensures m'[k].nRefCount == |Occ(t', k)| {
      assert Occ(t', k) == if k == n then {} else Occ(t, k);
    }
  }

  lemma TriedOkRemove(h: Env, key: nat, m: map<int, AddrInfo>, t: Table, slot: Slot)
    requires TriedOk(h, key, m, t) && slot in t
    ensures t[slot] in m && m[t[slot]].fInTried
    ensures TriedOk(h, key, m[t[slot] := m[t[slot]].(fInTried := false)], t - {slot})
  {
  }

  lemma UntryKeepsBase(h: Env, s: State, slot: Slot)
    requires CoreOk(h, s) && slot in s.tried
    ensures s.tried[slot] in s.mapInfo
    ensures CoreOk(h, Untry(s, slot))
    ensures NewIds(Untry(s, slot).mapInfo) == NewIds(s.mapInfo) + {s.tried[slot]}
    ensures s.tried[slot] !in NewIds(s.mapInfo)
  {
    TriedOkRemove(h, s.nKey, s.mapInfo, s.tried, slot);
    var e := s.tried[slot];
    assert e in TriedIds(s.mapInfo);
    assert TriedIds(Untry(s, slot).mapInfo) == TriedIds(s.mapInfo) - {e};
  }

  lemma NewOkUntry(h: Env, key: nat, m: map<int, AddrInfo>, t: Table, e: int, limbo: set<int>)
    requires NewOk(h, key, m, t, limbo) && e in m && m[e].fInTried
    requires m[e].nRefCount == 0
    ensures NewOk(h, key, m[e := m[e].(fInTried := false)], t, limbo + {e})
  {
  }

  /** A tried entry holds no reference. */
  lemma TriedHasNoRef(h: Env, s: State, n: int, limbo: set<int>, d: int)
    requires InvG(h, s, limbo, d) && n in s.mapInfo && s.mapInfo[n].fInTried
    ensures s.mapInfo[n].nRefCount == 0 && Occ(s.news, n) == {}
  {
  }

  lemma UntryKeeps(h: Env, s: State, slot: Slot, limbo: set<int>, d: int)
    requires InvG(h, s, limbo, d) && slot in s.tried
    ensures s.tried[slot] in s.mapInfo
    ensures InvG(h, Untry(s, slot), limbo + {s.tried[slot]}, d + 1)
  {
    UntryKeepsBase(h, s, slot);
    AddrOkSet(s.mapInfo, s.mapAddr, s.tried[slot], s.mapInfo[s.tried[slot]].(fInTried := false));
    TriedHasNoRef(h, s, s.tried[slot], limbo, d);
    NewOkUntry(h, s.nKey, s.mapInfo, s.news, s.tried[slot], limbo);
  }

  lemma NewSlotsPlace(h: Env, key: nat, m: map<int, AddrInfo>, t: Table, n: int, slot: Slot,
                      m': map<int, AddrInfo>, t': Table)
    requires forall x :: x in t ==> NewSlotOk(h, key, m, t, x)
    requires n in m && !m[n].fInTried
    requires slot.bucket < NEW_BUCKET_COUNT && slot == NewSlotIn(h, key, slot.bucket, m[n].addr.service)
    requires t' == t[slot := n] && exists r :: m' == m[n := m[n].(nRefCount := r)]
    ensures forall x :: x in t' ==> NewSlotOk(h, key, m', t', x)
  {
  }

  lemma RefCountsPlace(m: map<int, AddrInfo>, t: Table, n: int, slot: Slot)
    requires forall k :: k in m ==> m[k].nRefCount == |Occ(t, k)|
    requires n in m && slot !in t
    ensures forall k :: k in m ==> |Occ(t[slot := n], k)| == m[k].nRefCount + (if k == n then 1 else 0)
  {
    forall k | k in m ensures |Occ(t[slot := n], k)| == m[k].nRefCount + (if k == n then 1 else 0) {
      OccAdd(t, slot, n, k);
    }
  }

  lemma NewOkPlace(h: Env, key: nat, m: map<int, AddrInfo>, t: Table, n: int, slot: Slot, limbo: set<int>)
    requires NewOk(h, key, m, t, limbo) && n in m && !m[n].fInTried && slot !in t
    requires slot.bucket < NEW_BUCKET_COUNT && slot == NewSlotIn(h, key, slot.bucket, m[n].addr.service)
    requires m[n].nRefCount < NEW_BUCKETS_PER_ADDRESS
    ensures NewOk(h, key, m[n := m[n].(nRefCount := m[n].nRefCount + 1)], t[slot := n], limbo - {n})
  {
    var m' := m[n := m[n].(nRefCount := m[n].nRefCount + 1)];
    NewSlotsPlace(h, key, m, t, n, slot, m', t[slot := n]);
    RefCountsPlace(m, t, n, slot);
    assert NewIds(m') == NewIds(m);
  }

  lemma PlaceNewKeeps(h: Env, s: State, n: int, slot: Slot, limbo: set<int>, d: int)
    requires InvG(h, s, limbo, d) && n in s.mapInfo && !s.mapInfo[n].fInTried && slot !in s.news
    requires slot.bucket < NEW_BUCKET_COUNT && slot == NewSlotIn(h, s.nKey, slot.bucket, s.mapInfo[n].addr.service)
    requires s.mapInfo[n].nRefCount < NEW_BUCKETS_PER_ADDRESS
    ensures InvG(h, PlaceNew(s, n, slot), limbo - {n}, d)
  {
    PlaceNewKeepsCore(h, s, n, slot, limbo, d);
    AddrOkSet(s.mapInfo, s.mapAddr, n, s.mapInfo[n].(nRefCount := s.mapInfo[n].nRefCount + 1));
  }

  lemma PlaceNewKeepsCore(h: Env, s: State, n: int, slot: Slot, limbo: set<int>, d: int)
    requires CoreG(h, s, limbo, d) && n in s.mapInfo && !s.mapInfo[n].fInTried && slot !in s.news
    requires slot.bucket < NEW_BUCKET_COUNT && slot == NewSlotIn(h, s.nKey, slot.bucket, s.mapInfo[n].addr.service)
    requires s.mapInfo[n].nRefCount < NEW_BUCKETS_PER_ADDRESS
    ensures CoreG(h, PlaceNew(s, n, slot), limbo - {n}, d)
  {
    RefCountKeepsBase(h, s, n, s.mapInfo[n].nRefCount + 1, s.news[slot := n]);
    NewOkPlace(h, s.nKey, s.mapInfo, s.news, n, slot, limbo);
  }

  lemma TriedOkPlace(h: Env, key: nat, m: map<int, AddrInfo>, t: Table, n: int)
    requires TriedOk(h, key, m, t) && n in m && !m[n].fInTried
    requires TriedSlot(h, key, m[n].addr.service) !in t
    ensures TriedOk(h, key, m[n := m[n].(fInTried := true)], t[TriedSlot(h, key, m[n].addr.service) := n])
  {
  }

  lemma NewOkPlaceTried(h: Env, key: nat, m: map<int, AddrInfo>, t: Table, limbo: set<int>, n: int)
    requires NewOk(h, key, m, t, limbo) && n in limbo
    ensures NewOk(h, key, m[n := m[n].(fInTried := true)], t, limbo - {n})
  {
    var m' := m[n := m[n].(fInTried := true)];
    assert Occ(t, n) == {};
    forall x | x in t ensures NewSlotOk(h, key, m', t, x) {
      assert NewSlotOk(h, key, m, t, x);
      assert x !in Occ(t, n);
    }
  }

  lemma PlaceTriedKeeps(h: Env, s: State, n: int, limbo: set<int>, d: int)
    requires InvG(h, s, limbo, d) && n in limbo
    requires TriedSlot(h, s.nKey, s.mapInfo[n].addr.service) !in s.tried
    ensures InvG(h, PlaceTried(s, n, TriedSlot(h, s.nKey, s.mapInfo[n].addr.service)), limbo - {n}, d - 1)
  {
    PlaceTriedKeepsCore(h, s, n, limbo, d);
    AddrOkSet(s.mapInfo, s.mapAddr, n, s.mapInfo[n].(fInTried := true));
  }

  lemma PlaceTriedKeepsCore(h: Env, s: State, n: int, limbo: set<int>, d: int)
    requires CoreG(h, s, limbo, d) && n in limbo
    requires TriedSlot(h, s.nKey, s.mapInfo[n].addr.service) !in s.tried
    ensures CoreG(h, PlaceTried(s, n, TriedSlot(h, s.nKey, s.mapInfo[n].addr.service)), limbo - {n}, d - 1)
  {
    var slot := TriedSlot(h, s.nKey, s.mapInfo[n].addr.service);
    assert n in NewIds(s.mapInfo);
    assert NewIds(PlaceTried(s, n, slot).mapInfo) == NewIds(s.mapInfo) - {n};
    PlaceTriedKeepsBase(h, s, n);
    NewOkPlaceTried(h, s.nKey, s.mapInfo, s.news, limbo, n);
  }

  lemma PlaceTriedKeepsBase(h: Env, s: State, n: int)
    requires CoreOk(h, s) && n in s.mapInfo && !s.mapInfo[n].fInTried
    requires TriedSlot(h, s.nKey, s.mapInfo[n].addr.service) !in s.tried
    ensures CoreOk(h, PlaceTried(s, n, TriedSlot(h, s.nKey, s.mapInfo[n].addr.service)))
  {
    TriedOkPlace(h, s.nKey, s.mapInfo, s.tried, n);
    assert TriedIds(s.mapInfo[n := s.mapInfo[n].(fInTried := true)]) == TriedIds(s.mapInfo) + {n};
  }
}
