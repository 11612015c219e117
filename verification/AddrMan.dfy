/** The address manager as the object the node updates in place, each method proved
    against the operation of the same name on its abstract state. */
module AddrMan {
  import S = AddrManSpec
  import R = AddrManRuns
  import P = AddrManProofs
  import opened AddrManSpec
  import Sets
  import Bits

  /** The bucket array holds exactly the slots of table `t`; -1 marks a free one. */
  ghost predicate Holds(a: array2<int>, t: Table)
    reads a
  {
    && (forall s :: s in t ==> s.bucket < a.Length0 && s.pos < a.Length1 && t[s] != -1)
    && (forall b: nat, i: nat :: b < a.Length0 && i < a.Length1 ==>
          a[b, i] == if Slot(b, i) in t then t[Slot(b, i)] else -1)
  }

  class CAddrMan {
    const h: Env
    var nKey: nat
    var nIdCount: int
    var mapInfo: map<int, AddrInfo>
    var mapAddr: map<nat, int>
    var vRandom: seq<int>
    var nTried: int
    const vvTried: array2<int>
    var nNew: int
    const vvNew: array2<int>

    ghost var tried: Table
    ghost var news: Table

    ghost predicate Shape()
      reads this, vvTried, vvNew
    {
      && vvTried.Length0 == TRIED_BUCKET_COUNT && vvTried.Length1 == BUCKET_SIZE
      && vvNew.Length0 == NEW_BUCKET_COUNT && vvNew.Length1 == BUCKET_SIZE
      && vvTried != vvNew
      && Holds(vvTried, tried) && Holds(vvNew, news)
    }

    ghost function Abs(): State
      reads this
    {
      State(nKey, nIdCount, mapInfo, mapAddr, vRandom, nTried, tried, nNew, news)
    }

    ghost predicate Valid()
      reads this, vvTried, vvNew
    {
      Shape() && Inv(h, Abs())
    }

    constructor (env: Env, randomKey: nat)
      ensures h == env && Valid() && Abs() == R.EmptyState(randomKey)
      ensures nKey == randomKey && nIdCount == 0 && nTried == 0 && nNew == 0
      ensures mapInfo == map[] && mapAddr == map[] && vRandom == [] && tried == map[] && news == map[]
      ensures fresh(vvTried) && fresh(vvNew)
    {
      h := env;
      vvTried := new int[TRIED_BUCKET_COUNT, BUCKET_SIZE];
      vvNew := new int[NEW_BUCKET_COUNT, BUCKET_SIZE];
      mapInfo, mapAddr := map[], map[];
      new;
      Clear(randomKey);
      R.EmptyInv(h, randomKey);
    }

    /** Empties everything but the two maps; a fresh object starts with those empty. */
    method Clear(randomKey: nat)
      requires vvTried.Length0 == TRIED_BUCKET_COUNT && vvTried.Length1 == BUCKET_SIZE
      requires vvNew.Length0 == NEW_BUCKET_COUNT && vvNew.Length1 == BUCKET_SIZE && vvTried != vvNew
      modifies this, vvTried, vvNew
      ensures mapInfo == old(mapInfo) && mapAddr == old(mapAddr) && Shape()
      ensures Abs() == R.EmptyState(randomKey).(mapInfo := mapInfo, mapAddr := mapAddr)
    {
      vRandom := [];
      nKey := randomKey;
      Wipe(vvNew);
      Wipe(vvTried);
      news, tried := map[], map[];
      nIdCount := 0;
      nTried := 0;
      nNew := 0;
    }

    method Wipe(a: array2<int>)
      modifies a
      ensures Holds(a, map[])
    {
      for bucket := 0 to a.Length0
        invariant forall b, i :: 0 <= b < bucket && 0 <= i < a.Length1 ==> a[b, i] == -1
      {
        for entry := 0 to a.Length1
          invariant forall b, i :: 0 <= b < bucket && 0 <= i < a.Length1 ==> a[b, i] == -1
          invariant forall i :: 0 <= i < entry ==> a[bucket, i] == -1
        {
          a[bucket, entry] := -1;
        }
      }
    }

    method SetNew(b: nat, i: nat, id: int)
      requires Shape() && b < NEW_BUCKET_COUNT && i < BUCKET_SIZE
      modifies this`news, vvNew
      ensures Shape() && vvNew[b, i] == id
      ensures news == if id == -1 then old(news) - {Slot(b, i)} else old(news)[Slot(b, i) := id]
    {
      vvNew[b, i] := id;
      news := if id == -1 then news - {Slot(b, i)} else news[Slot(b, i) := id];
    }

    method SetTried(b: nat, i: nat, id: int)
      requires Shape() && b < TRIED_BUCKET_COUNT && i < BUCKET_SIZE
      modifies this`tried, vvTried
      ensures Shape() && vvTried[b, i] == id
      ensures tried == if id == -1 then old(tried) - {Slot(b, i)} else old(tried)[Slot(b, i) := id]
    {
      vvTried[b, i] := id;
      tried := if id == -1 then tried - {Slot(b, i)} else tried[Slot(b, i) := id];
    }

    method Find(ip: nat) returns (found: bool, id: int)
      ensures found <==> ip in mapAddr && mapAddr[ip] in mapInfo
      ensures found ==> id == mapAddr[ip]
    {
      if ip !in mapAddr {
        return false, 0;
      }
      id := mapAddr[ip];
      found := id in mapInfo;
    }

    method Create(addr: Address, source: nat) returns (id: int)
      requires nIdCount !in mapInfo
      modifies this
      ensures id == old(nIdCount) && Abs() == S.Create(old(Abs()), addr, source)
    {
      id := nIdCount;
      nIdCount := nIdCount + 1;
      mapInfo := mapInfo[id := FreshInfo(addr, source, -1)];
      mapAddr := mapAddr[addr.service.ip := id];
      mapInfo := mapInfo[id := mapInfo[id].(nRandomPos := |vRandom|)];
      vRandom := vRandom + [id];
    }

    method SwapRandom(i: nat, j: nat)
      requires i < |vRandom| && j < |vRandom| && RandomOk(mapInfo, vRandom)
      modifies this`mapInfo, this`vRandom
      ensures Abs() == S.SwapRandom(old(Abs()), i, j)
    {
      if i == j {
        assert vRandom[i := vRandom[j]][j := vRandom[i]] == vRandom;
        return;
      }
      var n1, n2 := vRandom[i], vRandom[j];
      assert n1 in mapInfo && n2 in mapInfo;
      mapInfo := mapInfo[n1 := mapInfo[n1].(nRandomPos := j)];
      mapInfo := mapInfo[n2 := mapInfo[n2].(nRandomPos := i)];
      vRandom := vRandom[i := n2];
      vRandom := vRandom[j := n1];
    }

    method Delete(id: int)
      requires id in mapInfo && RandomOk(mapInfo, vRandom)
      requires !mapInfo[id].fInTried && mapInfo[id].nRefCount == 0
      modifies this
      ensures Abs() == S.Delete(old(Abs()), id)
    {
      SwapRandom(mapInfo[id].nRandomPos, |vRandom| - 1);
      vRandom := vRandom[..|vRandom| - 1];
      mapAddr := mapAddr - {mapInfo[id].Ip()};
      mapInfo := mapInfo - {id};
      nNew := nNew - 1;
    }

    method ClearNew(bucket: nat, pos: nat)
      requires Shape() && bucket < NEW_BUCKET_COUNT && pos < BUCKET_SIZE
      requires vvNew[bucket, pos] != -1 ==> Droppable(vvNew[bucket, pos])
      requires RandomOk(mapInfo, vRandom)
      modifies this, vvNew
      ensures Shape() && Abs() == S.ClearNew(old(Abs()), Slot(bucket, pos))
      ensures vvNew[bucket, pos] == -1
    {
      if vvNew[bucket, pos] != -1 {
        var id := vvNew[bucket, pos];
        mapInfo := mapInfo[id := mapInfo[id].(nRefCount := mapInfo[id].nRefCount - 1)];
        SetNew(bucket, pos, -1);
        if mapInfo[id].nRefCount == 0 {
          Delete(id);
        }
      }
    }

    /** What ClearNew asserts of the entry it takes a reference from. */
    ghost predicate Droppable(id: int)
      reads this
    {
      id in mapInfo && !mapInfo[id].fInTried && mapInfo[id].nRefCount > 0
    }

    /** First loop of MakeTried: takes `id` out of every new bucket. */
    method EraseFromNew(id: int)
      requires Shape() && id in mapInfo && R.OneSlotPerBucket(h, Abs(), id)
      modifies this`mapInfo, this`news, vvNew
      ensures Shape() && Abs() == S.EraseNew(old(Abs()), id)
    {
      ghost var t0, m0, a := news, mapInfo, mapInfo[id].addr.service;
      assert R.OwnSlots(h, nKey, t0, id, a);
      PartlyStart(t0, id);
      assert mapInfo == WithRefs(m0, id, |Occ(t0, id)|);
      for bucket := 0 to NEW_BUCKET_COUNT
        invariant Shape() && Erasing(m0, t0, id, bucket, mapInfo, news)
      {
        ghost var m, t := mapInfo, news;
        EraseFromBucket(bucket, id);
        ErasingNext(h, nKey, m0, t0, id, bucket, a, m, t, mapInfo, news);
      }
      PartlyEnd(t0, id);
    }

    /** The body of that loop. */
    method EraseFromBucket(bucket: nat, id: int)
      requires Shape() && id in mapInfo && bucket < NEW_BUCKET_COUNT && 0 <= id
      modifies this`mapInfo, this`news, vvNew
      ensures Shape() && BucketErased(h, nKey, bucket, id, old(mapInfo), old(news), mapInfo, news)
    {
      var pos := GetBucketPosition(h, nKey, true, bucket, mapInfo[id].addr.service);
      if vvNew[bucket, pos] == id {
        SetNew(bucket, pos, -1);
        mapInfo := mapInfo[id := mapInfo[id].(nRefCount := mapInfo[id].nRefCount - 1)];
      }
    }

    /** Middle part of MakeTried: takes the entry in a tried slot back to the new table. */
    method EvictTried(kBucket: nat, kPos: nat)
      requires Shape() && kBucket < TRIED_BUCKET_COUNT && kPos < BUCKET_SIZE
      requires R.Evictable(h, Abs(), Slot(kBucket, kPos))
      modifies this, vvNew, vvTried
      ensures Shape() && Abs() == R.EvictStep(h, old(Abs()), Slot(kBucket, kPos))
    {
      ghost var s0 := Abs();
      var evict := vvTried[kBucket, kPos];
      mapInfo := mapInfo[evict := mapInfo[evict].(fInTried := false)];
      SetTried(kBucket, kPos, -1);
      nTried := nTried - 1;
      assert Abs() == Untry(s0, Slot(kBucket, kPos));
      var uBucket := GetNewBucket(h, nKey, mapInfo[evict].addr.service, mapInfo[evict].source);
      var uPos := GetBucketPosition(h, nKey, true, uBucket, mapInfo[evict].addr.service);
      ClearNew(uBucket, uPos);
      assert Abs() == S.ClearNew(Untry(s0, Slot(kBucket, kPos)), Slot(uBucket, uPos));
      Reenter(evict, uBucket, uPos);
    }

    /** Its last step: the evicted entry, which holds no reference, gets its home slot. */
    method Reenter(evict: int, uBucket: nat, uPos: nat)
      requires Shape() && uBucket < NEW_BUCKET_COUNT && uPos < BUCKET_SIZE
      requires evict in mapInfo && mapInfo[evict].nRefCount == 0 && evict != -1
      modifies this, vvNew
      ensures Shape() && Abs() == S.PlaceNew(old(Abs()), evict, Slot(uBucket, uPos)).(nNew := old(nNew) + 1)
    {
      mapInfo := mapInfo[evict := mapInfo[evict].(nRefCount := 1)];
      SetNew(uBucket, uPos, evict);
      nNew := nNew + 1;
    }

    method MakeTried(id: int)
      requires Shape() && R.Promotable(h, Abs(), id)
      modifies this, vvNew, vvTried
      ensures Shape() && Abs() == R.MakeTried(h, old(Abs()), id)
    {
      ghost var s0 := Abs();
      EraseFromNew(id);
      nNew := nNew - 1;
      ghost var t := R.Erased(s0, id);
      assert Abs() == t && mapInfo[id].nRefCount == 0;
      var kBucket := GetTriedBucket(h, nKey, mapInfo[id].addr.service);
      var kPos := GetBucketPosition(h, nKey, false, kBucket, mapInfo[id].addr.service);
      if vvTried[kBucket, kPos] != -1 {
        EvictTried(kBucket, kPos);
      }
      assert Abs() == R.RoomMade(h, t, Slot(kBucket, kPos));
      EnterTried(id, kBucket, kPos);
    }

    /** Last part of MakeTried. */
    method EnterTried(id: int, kBucket: nat, kPos: nat)
      requires Shape() && kBucket < TRIED_BUCKET_COUNT && kPos < BUCKET_SIZE && id in mapInfo && id != -1
      modifies this, vvTried
      ensures Shape() && Abs() == S.PlaceTried(old(Abs()), id, Slot(kBucket, kPos))
    {
      SetTried(kBucket, kPos, id);
      nTried := nTried + 1;
      mapInfo := mapInfo[id := mapInfo[id].(fInTried := true)];
    }

    method Good_(a: Service, nTime: int, rnd: nat)
      requires Shape() && R.GoodReady(h, Abs(), a, nTime)
      requires R.Knows(Abs(), a) && !mapInfo[mapAddr[a.ip]].fInTried ==> HasNewSlot(h, Abs(), mapAddr[a.ip])
      modifies this, vvNew, vvTried
      ensures Shape() && Abs() == R.Good(h, old(Abs()), a, nTime)
    {
      ghost var s0 := Abs();
      var found, id := Find(a.ip);
      if !found { return; }
      if mapInfo[id].addr.service != a { return; }
      mapInfo := mapInfo[id := mapInfo[id].(nLastSuccess := nTime, nLastTry := nTime, nAttempts := 0)];
      assert Abs() == SetInfo(s0, id, R.Marked(s0.mapInfo[id], nTime));
      if mapInfo[id].fInTried { return; }
      var uBucket := FindNewBucket(id, rnd);
      assert uBucket != -1;
      MakeTried(id);
    }

    /** The search of Good_ for a new bucket that holds `id`, from a random one on. */
    method FindNewBucket(id: int, rnd: nat) returns (uBucket: int)
      requires Shape() && id in mapInfo && HasNewSlot(h, Abs(), id)
      ensures 0 <= uBucket < NEW_BUCKET_COUNT
      ensures vvNew[uBucket, GetBucketPosition(h, nKey, true, uBucket, mapInfo[id].addr.service)] == id
    {
      var nRnd := rnd % NEW_BUCKET_COUNT;
      uBucket := -1;
      ghost var home :| home in news && news[home] == id && home.bucket < NEW_BUCKET_COUNT
                        && home == NewSlotIn(h, nKey, home.bucket, mapInfo[id].addr.service);
      ghost var last := RingIndex(nRnd, home.bucket, NEW_BUCKET_COUNT);
      for n := 0 to NEW_BUCKET_COUNT
        invariant n <= last
      {
        var nB := (n + nRnd) % NEW_BUCKET_COUNT;
        var nBpos := GetBucketPosition(h, nKey, true, nB, mapInfo[id].addr.service);
        if vvNew[nB, nBpos] == id {
          uBucket := nB;
          return;
        }
      }
      assert false;
    }

    method Attempt_(a: Service, nTime: int)
      modifies this`mapInfo
      ensures Abs() == R.Attempt(old(Abs()), a, nTime)
    {
      var found, id := Find(a.ip);
      if !found { return; }
      var info := mapInfo[id];
      if info.addr.service != a { return; }
      info := info.(nLastTry := nTime);
      info := info.(nAttempts := info.nAttempts + 1);
      mapInfo := mapInfo[id := info];
    }

    method Connected_(a: Service, nTime: int)
      modifies this`mapInfo
      ensures Abs() == R.Connected(old(Abs()), a, nTime)
    {
      var found, id := Find(a.ip);
      if !found { return; }
      var info := mapInfo[id];
      if info.addr.service != a { return; }
      var nUpdateInterval := 20 * 60;
      if nTime - info.addr.nTime > nUpdateInterval {
        mapInfo := mapInfo[id := info.(addr := info.addr.(nTime := nTime % UINT32))];
      }
    }

    method Add_(addr: Address, source: nat, nTimePenalty: int, nNow: int, rnd: nat) returns (fNew: bool)
      requires Shape() && nIdCount !in mapInfo
      requires R.AddReady(h, Abs(), addr, source, nTimePenalty, nNow, rnd)
      modifies this, vvNew
      ensures fNew == R.AddsNew(h, old(Abs()), addr)
      ensures Shape() && Abs() == R.Add(h, old(Abs()), addr, source, nTimePenalty, nNow, rnd)
    {
      ghost var s0 := Abs();
      if !h.routable(addr.service.ip) { return false; }
      fNew := false;
      var found, id := Find(addr.service.ip);
      if found {
        mapInfo := mapInfo[id := R.Refresh(mapInfo[id], addr, nTimePenalty, nNow)];
        var info := mapInfo[id];
        if addr.nTime == 0 || (info.addr.nTime != 0 && addr.nTime <= info.addr.nTime) { return; }
        if info.fInTried { return; }
        if info.nRefCount == NEW_BUCKETS_PER_ADDRESS { return; }
        var nFactor := 1;
        for n := 0 to info.nRefCount
          invariant nFactor == Bits.Pow2(n)
        {
          nFactor := nFactor * 2;
        }
        if nFactor > 1 && rnd % nFactor != 0 { return; }
      } else {
        id := CreateNew(addr, source, nTimePenalty);
        fNew := true;
      }
      assert (Abs(), id) == R.Prepared(s0, addr, source, nTimePenalty, nNow);
      Link(id, source, nNow);
    }

    /** The part of Add_ for an address seen for the first time. */
    method CreateNew(addr: Address, source: nat, nTimePenalty: int) returns (id: int)
      requires nIdCount !in mapInfo
      modifies this
      ensures id == old(nIdCount) && Abs() == R.CreateNew(old(Abs()), addr, source, nTimePenalty)
      ensures news == old(news) && tried == old(tried)
    {
      id := Create(addr, source);
      var info := mapInfo[id];
      mapInfo := mapInfo[id := info.(addr := info.addr.(nTime := R.Max0(info.addr.nTime - nTimePenalty)))];
      nNew := nNew + 1;
    }

    /** The last part of Add_: one more slot for `id` if it can have it. */
    method Link(id: int, source: nat, nNow: int)
      requires Shape() && R.LinkReady(h, Abs(), id, source)
      modifies this, vvNew
      ensures Shape() && Abs() == R.Link(h, old(Abs()), id, source, nNow)
    {
      var uBucket := GetNewBucket(h, nKey, mapInfo[id].addr.service, source);
      var uPos := GetBucketPosition(h, nKey, true, uBucket, mapInfo[id].addr.service);
      if vvNew[uBucket, uPos] != id {
        var fInsert := vvNew[uBucket, uPos] == -1;
        if !fInsert {
          var existing := mapInfo[vvNew[uBucket, uPos]];
          if IsTerrible(existing, nNow) || (existing.nRefCount > 1 && mapInfo[id].nRefCount == 0) {
            fInsert := true;
          }
        }
        if fInsert {
          ClearNew(uBucket, uPos);
          EnterNew(id, uBucket, uPos);
        } else if mapInfo[id].nRefCount == 0 {
          Delete(id);
        }
      }
    }

    method EnterNew(id: int, uBucket: nat, uPos: nat)
      requires Shape() && uBucket < NEW_BUCKET_COUNT && uPos < BUCKET_SIZE && id in mapInfo && id != -1
      modifies this, vvNew
      ensures Shape() && Abs() == S.PlaceNew(old(Abs()), id, Slot(uBucket, uPos))
    {
      mapInfo := mapInfo[id := mapInfo[id].(nRefCount := mapInfo[id].nRefCount + 1)];
      SetNew(uBucket, uPos, id);
    }

    method GetAddr_(rnd: nat -> nat, nNow: int) returns (vAddr: seq<Address>)
      requires RandomOk(mapInfo, vRandom)
      modifies this`mapInfo, this`vRandom
      ensures (Abs(), vAddr) == R.GetAddr(old(Abs()), rnd, nNow)
    {
      var nNodes := GETADDR_MAX_PCT * |vRandom| / 100;
      if nNodes > GETADDR_MAX {
        nNodes := GETADDR_MAX;
      }
      vAddr := [];
      ghost var goal := R.GetAddr(Abs(), rnd, nNow);
      var n := 0;
      while n < |vRandom|
        invariant n <= |vRandom| && RandomOk(mapInfo, vRandom)
        invariant R.GetAddrFrom(Abs(), n, nNodes, vAddr, rnd, nNow) == goal
        decreases |vRandom| - n
      {
        if |vAddr| >= nNodes { break; }
        vAddr := GetAddrTurn(n, nNodes, vAddr, rnd, nNow);
        n := n + 1;
      }
    }

    /** The body of that loop. */
    method GetAddrTurn(n: nat, nNodes: nat, vAddr: seq<Address>, rnd: nat -> nat,
                       nNow: int) returns (vAddr': seq<Address>)
      requires RandomOk(mapInfo, vRandom) && n < |vRandom| && |vAddr| < nNodes
      modifies this`mapInfo, this`vRandom
      ensures RandomOk(mapInfo, vRandom) && |vRandom| == |old(vRandom)|
      ensures R.GetAddrFrom(Abs(), n + 1, nNodes, vAddr', rnd, nNow) ==
              R.GetAddrFrom(old(Abs()), n, nNodes, vAddr, rnd, nNow)
    {
      var nRndPos := rnd(n) % (|vRandom| - n) + n;
      R.GetAddrUnfold(Abs(), n, nNodes, vAddr, rnd, nNow, nRndPos);
      SwapRandom(n, nRndPos);
      var ai := mapInfo[vRandom[n]];
      vAddr' := vAddr;
      if !IsTerrible(ai, nNow) {
        vAddr' := vAddr' + [ai.addr];
      }
    }

    // The public operations: on a consistent object they keep it consistent, so that the
    // state before and after each is one that Check_ passes, up to its conditions on times.

    method Add(addr: Address, source: nat, nTimePenalty: int, nNow: int, rnd: nat) returns (fRet: bool)
      requires Valid()
      modifies this, vvNew
      ensures Valid() && Abs() == R.Step(h, old(Abs()), R.AddOp(addr, source, nTimePenalty, nNow, rnd))
      ensures fRet <==> h.routable(addr.service.ip) && addr.service.ip !in old(mapAddr)
    {
      R.AddKeeps(h, Abs(), addr, source, nTimePenalty, nNow, rnd);
      fRet := Add_(addr, source, nTimePenalty, nNow, rnd);
    }

    method Good(a: Service, nTime: int, rnd: nat)
      requires Valid()
      modifies this, vvNew, vvTried
      ensures Valid() && Abs() == R.Step(h, old(Abs()), R.GoodOp(a, nTime))
    {
      R.GoodKeeps(h, Abs(), a, nTime);
      if R.Knows(Abs(), a) && !mapInfo[mapAddr[a.ip]].fInTried {
        ghost var u := HasSlot(h, Abs(), mapAddr[a.ip]);
      }
      Good_(a, nTime, rnd);
    }

    method Attempt(a: Service, nTime: int)
      requires Valid()
      modifies this`mapInfo
      ensures Valid() && Abs() == R.Step(h, old(Abs()), R.AttemptOp(a, nTime))
    {
      R.AttemptKeeps(h, Abs(), a, nTime);
      Attempt_(a, nTime);
    }

    method Connected(a: Service, nTime: int)
      requires Valid()
      modifies this`mapInfo
      ensures Valid() && Abs() == R.Step(h, old(Abs()), R.ConnectedOp(a, nTime))
    {
      R.ConnectedKeeps(h, Abs(), a, nTime);
      Connected_(a, nTime);
    }

    method GetAddr(rnd: nat -> nat, nNow: int) returns (vAddr: seq<Address>)
      requires Valid()
      modifies this`mapInfo, this`vRandom
      ensures Valid() && Abs() == R.Step(h, old(Abs()), R.GetAddrOp(rnd, nNow))
      ensures vAddr == R.GetAddr(old(Abs()), rnd, nNow).1
    {
      R.GetAddrKeeps(h, Abs(), rnd, nNow);
      vAddr := GetAddr_(rnd, nNow);
    }
  }

  /** One call on the object; `rnd` is the bucket that Good_ begins its search with. */
  method Call(man: CAddrMan, op: R.Op, rnd: nat)
    requires man.Valid()
    modifies man, man.vvNew, man.vvTried
    ensures man.Valid() && man.Abs() == R.Step(man.h, old(man.Abs()), op)
  {
    match op
    case AddOp(addr, source, nTimePenalty, nNow, draw) => var fRet := man.Add(addr, source, nTimePenalty, nNow, draw);
    case GoodOp(a, nTime) => man.Good(a, nTime, rnd);
    case AttemptOp(a, nTime) => man.Attempt(a, nTime);
    case ConnectedOp(a, nTime) => man.Connected(a, nTime);
    case GetAddrOp(draws, nNow) => var vAddr := man.GetAddr(draws, nNow);
  }

  /** Calls on a new object, one after the other: the runs that AddrManRuns and AddrManMeaning are about. */
  method Calls(h: Env, nKey: nat, ops: seq<R.Op>, rnd: nat -> nat) returns (man: CAddrMan)
    ensures man.h == h && man.Valid() && man.Abs() == R.Run(h, nKey, ops)
  {
    man := new CAddrMan(h, nKey);
    for i := 0 to |ops|
      invariant fresh(man) && fresh(man.vvNew) && fresh(man.vvTried) && man.h == h
      invariant man.Valid() && man.Abs() == R.Run(h, nKey, ops[..i])
    {
      assert ops[..i + 1][..i] == ops[..i];
      Call(man, ops[i], rnd(i));
    }
    assert ops[..|ops|] == ops;
  }

  function WithRefs(m: map<int, AddrInfo>, id: int, refs: int): map<int, AddrInfo>
    requires id in m
  {
    m[id := m[id].(nRefCount := refs)]
  }

  /** What the turn for one bucket does: the one slot there that `id` may hold is emptied. */
  ghost predicate BucketErased(h: Env, key: nat, bucket: nat, id: int, m: map<int, AddrInfo>, t: Table,
                               m': map<int, AddrInfo>, t': Table)
  {
    && id in m
    && var u := NewSlotIn(h, key, bucket, m[id].addr.service);
    if u in t && t[u] == id then t' == t - {u} && m' == WithRefs(m, id, m[id].nRefCount - 1)
    else t' == t && m' == m
  }

  /** The buckets below `bucket` are done. */
  ghost predicate Erasing(m0: map<int, AddrInfo>, t0: Table, id: int, bucket: nat, m: map<int, AddrInfo>, t: Table) {
    id in m0 && t == Partly(t0, id, bucket) && m == WithRefs(m0, id, |Occ(t, id)|)
  }

  lemma ErasingNext(h: Env, key: nat, m0: map<int, AddrInfo>, t0: Table, id: int, bucket: nat, a: Service,
                    m: map<int, AddrInfo>, t: Table, m': map<int, AddrInfo>, t': Table)
    requires Erasing(m0, t0, id, bucket, m, t) && a == m0[id].addr.service && R.OwnSlots(h, key, t0, id, a)
    requires BucketErased(h, key, bucket, id, m, t, m', t')
    ensures Erasing(m0, t0, id, bucket + 1, m', t')
  {
    PartlyStep(h, key, t0, id, bucket, m0[id].addr.service);
    WithRefsTwice(m0, id, |Occ(t, id)|, |Occ(t, id)| - 1);
  }

  lemma WithRefsTwice(m: map<int, AddrInfo>, id: int, refs: int, refs': int)
    requires id in m
    ensures WithRefs(WithRefs(m, id, refs), id, refs') == WithRefs(m, id, refs')
  {
  }

  ghost predicate HasNewSlot(h: Env, s: State, n: int)
    requires n in s.mapInfo
  {
    exists u :: u in s.news && s.news[u] == n && u.bucket < NEW_BUCKET_COUNT
             && u == NewSlotIn(h, s.nKey, u.bucket, s.mapInfo[n].addr.service)
  }

  lemma HasSlot(h: Env, s: State, n: int) returns (u: Slot)
    requires Inv(h, s) && n in s.mapInfo && !s.mapInfo[n].fInTried
    ensures u.bucket < NEW_BUCKET_COUNT && u in s.news && s.news[u] == n
    ensures u == NewSlotIn(h, s.nKey, u.bucket, s.mapInfo[n].addr.service)
  {
    assert s.mapInfo[n].nRefCount == |Occ(s.news, n)| != 0;
    u := Sets.Member(Occ(s.news, n));
    assert NewSlotOk(h, s.nKey, s.mapInfo, s.news, u);
  }

  /** Stepping once round a ring of size `size` from anywhere meets every point. */
  lemma RingIndex(start: nat, target: nat, size: nat) returns (m: nat)
    requires start < size && target < size
    ensures m < size && (m + start) % size == target
  {
    m := if target >= start then target - start else target - start + size;
  }

  /** The table with `id` taken out of the buckets below `bucket`. */
  ghost function Partly(t: Table, id: int, bucket: nat): Table {
    map s | s in t && !(t[s] == id && s.bucket < bucket) :: t[s]
  }

  lemma PartlyStart(t: Table, id: int)
    ensures Partly(t, id, 0) == t
  {
  }

  lemma PartlyStep(h: Env, key: nat, t: Table, id: int, bucket: nat, a: Service)
    requires R.OwnSlots(h, key, t, id, a)
    ensures var before, after, u := Partly(t, id, bucket), Partly(t, id, bucket + 1), NewSlotIn(h, key, bucket, a);
            if u in before && before[u] == id then after == before - {u} && |Occ(after, id)| == |Occ(before, id)| - 1
            else after == before
  {
    var before, after, u := Partly(t, id, bucket), Partly(t, id, bucket + 1), NewSlotIn(h, key, bucket, a);
    if u in before && before[u] == id {
      assert after == before - {u};
      P.OccRemove(before, u, id);
    } else {
      assert after == before;
    }
  }

  lemma PartlyEnd(t: Table, id: int)
    requires forall x :: x in t && t[x] == id ==> x.bucket < NEW_BUCKET_COUNT
    ensures Partly(t, id, NEW_BUCKET_COUNT) == t - Occ(t, id)
    ensures |Occ(Partly(t, id, NEW_BUCKET_COUNT), id)| == 0
  {
  }
}
