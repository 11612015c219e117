/** The public operations of the address manager, what each leaves behind, and runs of them. */
module AddrManRuns {
  import opened AddrManSpec
  import opened AddrManProofs
  import opened Bits
  import opened Sets

  /** The steps that take the entry in tried slot `slot` back to its home slot in the new table. */
  function EvictStep(h: Env, s: State, slot: Slot): State
    requires Evictable(h, s, slot)
  {
    var e := s.tried[slot];
    var t := Untry(s, slot);
    var u := HomeSlot(h, s, e);
    var c := ClearNew(t, u);
    PlaceNew(c, e, u).(nNew := c.nNew + 1)
  }

  /** The new slot the entry displaced from the tried table goes to. */
  function HomeSlot(h: Env, s: State, e: int): Slot
    requires e in s.mapInfo
  {
    NewSlot(h, s.nKey, s.mapInfo[e].addr.service, s.mapInfo[e].source)
  }

  /** What the source asserts on the way through those steps. */
  ghost predicate Evictable(h: Env, s: State, slot: Slot) {
    && slot in s.tried && s.tried[slot] in s.mapInfo && s.tried[slot] != -1
    && var t, u := Untry(s, slot), HomeSlot(h, s, s.tried[slot]);
    && RandomOk(t.mapInfo, t.vRandom)
    && (u in t.news ==> Droppable(t, t.news[u]))
    && var c := ClearNew(t, u);
    && s.tried[slot] in c.mapInfo && c.mapInfo[s.tried[slot]].nRefCount == 0
  }

  ghost predicate Droppable(s: State, n: int) {
    n in s.mapInfo && !s.mapInfo[n].fInTried && s.mapInfo[n].nRefCount > 0
  }

  /** Make room in the tried slot of `n`. */
  function Evict(h: Env, s: State, n: int): (r: State)
    requires InvG(h, s, {n}, 1) && n in s.mapInfo
    ensures n in r.mapInfo && r.mapInfo[n] == s.mapInfo[n].(nRandomPos := r.mapInfo[n].nRandomPos)
    ensures r.nKey == s.nKey
  {
    var slot := TriedSlot(h, s.nKey, s.mapInfo[n].addr.service);
    if slot !in s.tried then s else EvictSteps(h, s, n); EvictStep(h, s, slot)
  }

  lemma EvictKeeps(h: Env, s: State, n: int)
    requires InvG(h, s, {n}, 1) && n in s.mapInfo
    ensures InvG(h, Evict(h, s, n), {n}, 1)
    ensures TriedSlot(h, s.nKey, s.mapInfo[n].addr.service) !in Evict(h, s, n).tried
  {
    if TriedSlot(h, s.nKey, s.mapInfo[n].addr.service) in s.tried {
      EvictSteps(h, s, n);
    }
  }

  /** None of those assertions fires. */
  lemma EvictReady(h: Env, s: State, n: int)
    requires InvG(h, s, {n}, 1) && n in s.mapInfo
    requires TriedSlot(h, s.nKey, s.mapInfo[n].addr.service) in s.tried
    ensures var slot := TriedSlot(h, s.nKey, s.mapInfo[n].addr.service);
            && Evictable(h, s, slot) && s.tried[slot] != n
            && InvG(h, Untry(s, slot), {n, s.tried[slot]}, 2)
  {
    var slot := TriedSlot(h, s.nKey, s.mapInfo[n].addr.service);
    var e := s.tried[slot];
    EvictUntry(h, s, n, slot, e);
    EvictClear(h, Untry(s, slot), n, e, HomeSlot(h, s, e));
  }

  lemma EvictSteps(h: Env, s: State, n: int)
    requires InvG(h, s, {n}, 1) && n in s.mapInfo
    requires TriedSlot(h, s.nKey, s.mapInfo[n].addr.service) in s.tried
    ensures var slot := TriedSlot(h, s.nKey, s.mapInfo[n].addr.service);
            && Evictable(h, s, slot)
            && var r := EvictStep(h, s, slot);
            && InvG(h, r, {n}, 1) && r.nKey == s.nKey
            && n in r.mapInfo && r.mapInfo[n] == s.mapInfo[n].(nRandomPos := r.mapInfo[n].nRandomPos)
            && r.tried == s.tried - {slot}
            && r.news == (s.news - {HomeSlot(h, s, s.tried[slot])})[HomeSlot(h, s, s.tried[slot]) := s.tried[slot]]
  {
    var slot := TriedSlot(h, s.nKey, s.mapInfo[n].addr.service);
    var e := s.tried[slot];
    EvictReady(h, s, n);
    EvictUntry(h, s, n, slot, e);
    var t := Untry(s, slot);
    var u := HomeSlot(h, s, e);
    EvictClear(h, t, n, e, u);
    EvictPlaces(h, ClearNew(t, u), n, e, u);
  }

  lemma EvictPlaces(h: Env, c: State, n: int, e: int, u: Slot)
    requires InvG(h, c, {n, e}, 2) && n != e && u !in c.news
    requires e in c.mapInfo && c.mapInfo[e].nRefCount == 0 && u == HomeSlot(h, c, e)
    ensures InvG(h, PlaceNew(c, e, u).(nNew := c.nNew + 1), {n}, 1)
  {
    assert e in NewIds(c.mapInfo);
    PlaceNewKeeps(h, c, e, u, {n, e}, 2);
    assert {n, e} - {e} == {n};
  }

  lemma EvictUntry(h: Env, s: State, n: int, slot: Slot, e: int)
    requires InvG(h, s, {n}, 1) && n in s.mapInfo
    requires slot in s.tried && s.tried[slot] == e
    ensures e in s.mapInfo && e != n && e != -1 && InvG(h, Untry(s, slot), {n, e}, 2)
    ensures s.mapInfo[e].nRefCount == 0
  {
    UntryKeeps(h, s, slot, {n}, 1);
    assert n in NewIds(s.mapInfo);
    TriedHasNoRef(h, s, e, {n}, 1);
    assert {n} + {e} == {n, e};
  }

  lemma EvictClear(h: Env, t: State, n: int, e: int, u: Slot)
    requires InvG(h, t, {n, e}, 2) && n != e
    ensures n in t.mapInfo && e in t.mapInfo
    ensures u in t.news ==> Droppable(t, t.news[u])
    ensures var c := ClearNew(t, u);
            && InvG(h, c, {n, e}, 2) && u !in c.news
            && n in c.mapInfo && c.mapInfo[n] == t.mapInfo[n].(nRandomPos := c.mapInfo[n].nRandomPos)
            && e in c.mapInfo && c.mapInfo[e] == t.mapInfo[e].(nRandomPos := c.mapInfo[e].nRandomPos)
            && c.tried == t.tried && c.news == t.news - {u} && c.nKey == t.nKey
  {
    HolderDroppable(h, t, u, {n, e}, 2);
    LimboHasNoSlot(h, t, n, {n, e}, 2);
    LimboHasNoSlot(h, t, e, {n, e}, 2);
    ClearNewKeeps(h, t, u, {n, e}, 2);
    ClearNewFrame(h, t, u, {n, e}, 2, n);
    ClearNewFrame(h, t, u, {n, e}, 2, e);
  }

  lemma HolderDroppable(h: Env, s: State, u: Slot, limbo: set<int>, d: int)
    requires InvG(h, s, limbo, d)
    ensures u in s.news ==> Droppable(s, s.news[u])
  {
    if u in s.news {
      assert NewSlotOk(h, s.nKey, s.mapInfo, s.news, u);
      assert u in Occ(s.news, s.news[u]);
    }
  }

  lemma LimboHasNoSlot(h: Env, s: State, n: int, limbo: set<int>, d: int)
    requires InvG(h, s, limbo, d) && n in limbo
    ensures n in s.mapInfo && s.mapInfo[n].nRefCount == 0
    ensures forall x :: x in s.news ==> s.news[x] != n
  {
    assert n in NewIds(s.mapInfo);
    assert Occ(s.news, n) == {};
    forall x | x in s.news ensures s.news[x] != n {
      assert x !in Occ(s.news, n);
    }
  }

  // ---------------------------------------------------------------- Good_

  /** `n` has at most its own position in each new bucket, and its references are counted. */
  ghost predicate OneSlotPerBucket(h: Env, s: State, n: int)
    requires n in s.mapInfo
  {
    && 0 <= n && s.mapInfo[n].nRefCount == |Occ(s.news, n)|
    && OwnSlots(h, s.nKey, s.news, n, s.mapInfo[n].addr.service)
  }

  ghost predicate OwnSlots(h: Env, key: nat, t: Table, n: int, a: Service) {
    forall x :: x in t && t[x] == n ==> x.bucket < NEW_BUCKET_COUNT && x == NewSlotIn(h, key, x.bucket, a)
  }

  lemma InvOneSlot(h: Env, s: State, n: int)
    requires Inv(h, s) && n in s.mapInfo
    ensures OneSlotPerBucket(h, s, n)
  {
  }

  /** `n` out of every new slot, and no longer counted as new. */
  function Erased(s: State, n: int): State
    requires n in s.mapInfo
  {
    EraseNew(s, n).(nNew := s.nNew - 1)
  }

  /** What the source asserts on the way through MakeTried. */
  ghost predicate Promotable(h: Env, s: State, n: int) {
    && n in s.mapInfo && OneSlotPerBucket(h, s, n)
    && RoomReady(h, Erased(s, n), TriedSlot(h, s.nKey, s.mapInfo[n].addr.service))
    && var u := RoomMade(h, Erased(s, n), TriedSlot(h, s.nKey, s.mapInfo[n].addr.service));
    && u.nKey == s.nKey && n in u.mapInfo && u.mapInfo[n].addr.service == s.mapInfo[n].addr.service
  }

  ghost predicate RoomReady(h: Env, s: State, slot: Slot) {
    slot in s.tried ==> Evictable(h, s, slot)
  }

  /** The tried slot free. */
  function RoomMade(h: Env, s: State, slot: Slot): State
    requires RoomReady(h, s, slot)
  {
    if slot in s.tried then EvictStep(h, s, slot) else s
  }

  /** Move a new entry to its tried slot, which it shares with nobody. */
  function MakeTried(h: Env, s: State, n: int): State
    requires Promotable(h, s, n)
  {
    var slot := TriedSlot(h, s.nKey, s.mapInfo[n].addr.service);
    PlaceTried(RoomMade(h, Erased(s, n), slot), n, slot)
  }

  /** In a consistent state none of those assertions fires. */
  lemma MakeTriedOk(h: Env, s: State, n: int)
    requires Inv(h, s) && n in s.mapInfo && !s.mapInfo[n].fInTried
    ensures Promotable(h, s, n)
    ensures InvG(h, Erased(s, n), {n}, 1)
    ensures MakeTried(h, s, n) == PlaceTried(Evict(h, Erased(s, n), n), n,
                                             TriedSlot(h, s.nKey, s.mapInfo[n].addr.service))
  {
    InvOneSlot(h, s, n);
    EraseNewKeeps(h, s, n);
    RoomMadeIs(h, Erased(s, n), n);
  }

  lemma RoomMadeIs(h: Env, t: State, n: int)
    requires InvG(h, t, {n}, 1) && n in t.mapInfo
    ensures var slot := TriedSlot(h, t.nKey, t.mapInfo[n].addr.service);
            RoomReady(h, t, slot) && RoomMade(h, t, slot) == Evict(h, t, n)
  {
    if TriedSlot(h, t.nKey, t.mapInfo[n].addr.service) in t.tried {
      EvictReady(h, t, n);
    }
  }

  lemma MakeTriedKeeps(h: Env, s: State, n: int)
    requires Inv(h, s) && n in s.mapInfo && !s.mapInfo[n].fInTried
    ensures Promotable(h, s, n) && Inv(h, MakeTried(h, s, n))
  {
    MakeTriedOk(h, s, n);
    var t := Erased(s, n);
    EvictKeeps(h, t, n);
    PlaceTriedKeeps(h, Evict(h, t, n), n, {n}, 1);
    assert {n} - {n} == {};
  }

  ghost predicate SameRole(i: AddrInfo, j: AddrInfo) {
    && i.addr.service == j.addr.service && i.nRefCount == j.nRefCount
    && i.fInTried == j.fInTried && i.nRandomPos == j.nRandomPos
  }

  /** Times, counts of attempts and services play no part in the consistency condition. */
  lemma SetInfoKeeps(h: Env, s: State, n: int, i: AddrInfo, limbo: set<int>, d: int)
    requires InvG(h, s, limbo, d) && n in s.mapInfo && SameRole(s.mapInfo[n], i)
    ensures InvG(h, SetInfo(s, n, i), limbo, d)
  {
    SetInfoKeepsCore(h, s, n, i, limbo, d);
    AddrOkSet(s.mapInfo, s.mapAddr, n, i);
  }

  lemma SetInfoKeepsCore(h: Env, s: State, n: int, i: AddrInfo, limbo: set<int>, d: int)
    requires CoreG(h, s, limbo, d) && n in s.mapInfo && SameRole(s.mapInfo[n], i)
    ensures CoreG(h, SetInfo(s, n, i), limbo, d)
  {
    var m := s.mapInfo[n := i];
    assert NewIds(m) == NewIds(s.mapInfo) && TriedIds(m) == TriedIds(s.mapInfo);
    SetInfoKeepsTables(h, s, n, i, limbo);
  }

  lemma SetInfoKeepsTables(h: Env, s: State, n: int, i: AddrInfo, limbo: set<int>)
    requires CoreOk(h, s) && NewOk(h, s.nKey, s.mapInfo, s.news, limbo)
    requires n in s.mapInfo && SameRole(s.mapInfo[n], i)
    ensures TriedOk(h, s.nKey, s.mapInfo[n := i], s.tried)
    ensures NewOk(h, s.nKey, s.mapInfo[n := i], s.news, limbo)
  {
    var m := s.mapInfo[n := i];
    assert NewIds(m) == NewIds(s.mapInfo);
    forall x | x in s.tried
      ensures s.tried[x] in m && m[s.tried[x]].fInTried && x == TriedSlot(h, s.nKey, m[s.tried[x]].addr.service)
    {
      assert s.tried[x] in s.mapInfo && x == TriedSlot(h, s.nKey, s.mapInfo[s.tried[x]].addr.service);
    }
    forall x | x in s.news ensures NewSlotOk(h, s.nKey, m, s.news, x) {
      assert NewSlotOk(h, s.nKey, s.mapInfo, s.news, x);
    }
  }

  function Knows(s: State, a: Service): bool {
    a.ip in s.mapAddr && s.mapAddr[a.ip] in s.mapInfo && s.mapInfo[s.mapAddr[a.ip]].addr.service == a
  }

  function Marked(i: AddrInfo, nTime: int): AddrInfo {
    i.(nLastSuccess := nTime, nLastTry := nTime, nAttempts := 0)
  }

  ghost predicate GoodReady(h: Env, s: State, a: Service, nTime: int) {
    Knows(s, a) ==>
      var n := s.mapAddr[a.ip];
      !s.mapInfo[n].fInTried ==> Promotable(h, SetInfo(s, n, Marked(s.mapInfo[n], nTime)), n)
  }

  function Good(h: Env, s: State, a: Service, nTime: int): State
    requires GoodReady(h, s, a, nTime)
  {
    if !Knows(s, a) then s
    else
      var n := s.mapAddr[a.ip];
      var t := SetInfo(s, n, Marked(s.mapInfo[n], nTime));
      if s.mapInfo[n].fInTried then t else MakeTried(h, t, n)
  }

  lemma GoodKeeps(h: Env, s: State, a: Service, nTime: int)
    requires Inv(h, s)
    ensures GoodReady(h, s, a, nTime) && Inv(h, Good(h, s, a, nTime))
  {
    if Knows(s, a) {
      var n := s.mapAddr[a.ip];
      var i := Marked(s.mapInfo[n], nTime);
      SetInfoKeeps(h, s, n, i, {}, 0);
      if !i.fInTried {
        MakeTriedKeeps(h, SetInfo(s, n, i), n);
      }
    }
  }

  function Attempt(s: State, a: Service, nTime: int): State {
    if !Knows(s, a) then s
    else
      var i := s.mapInfo[s.mapAddr[a.ip]];
      SetInfo(s, s.mapAddr[a.ip], i.(nLastTry := nTime, nAttempts := i.nAttempts + 1))
  }

  function Connected(s: State, a: Service, nTime: int): State {
    if !Knows(s, a) then s
    else
      var i := s.mapInfo[s.mapAddr[a.ip]];
      if nTime - i.addr.nTime <= 20 * 60 then s
      else SetInfo(s, s.mapAddr[a.ip], i.(addr := i.addr.(nTime := nTime % UINT32)))
  }

  lemma AttemptKeeps(h: Env, s: State, a: Service, nTime: int)
    requires Inv(h, s)
    ensures Inv(h, Attempt(s, a, nTime))
  {
    if Knows(s, a) {
      var i := s.mapInfo[s.mapAddr[a.ip]];
      var i' := i.(nLastTry := nTime, nAttempts := i.nAttempts + 1);
      SetInfoKeeps(h, s, s.mapAddr[a.ip], i', {}, 0);
      assert Attempt(s, a, nTime) == SetInfo(s, s.mapAddr[a.ip], i');
    }
  }

  lemma ConnectedKeeps(h: Env, s: State, a: Service, nTime: int)
    requires Inv(h, s)
    ensures Inv(h, Connected(s, a, nTime))
  {
    if Knows(s, a) {
      var i := s.mapInfo[s.mapAddr[a.ip]];
      var i' := i.(addr := i.addr.(nTime := nTime % UINT32));
      SetInfoKeeps(h, s, s.mapAddr[a.ip], i', {}, 0);
      assert Connected(s, a, nTime) in {s, SetInfo(s, s.mapAddr[a.ip], i')};
    }
  }

  // ---------------------------------------------------------------- Add_

  function Max0(x: int): int { if x > 0 then x % UINT32 else 0 }

  /** Refresh time and services of a known address. */
  function Refresh(i: AddrInfo, addr: Address, nTimePenalty: int, nNow: int): AddrInfo {
    var nUpdateInterval := if nNow - addr.nTime < 24 * 60 * 60 then 60 * 60 else 24 * 60 * 60;
    var nTime :=
      if addr.nTime != 0 && (i.addr.nTime == 0 || i.addr.nTime < addr.nTime - nUpdateInterval - nTimePenalty)
      then Max0(addr.nTime - nTimePenalty) else i.addr.nTime;
    i.(addr := i.addr.(nTime := nTime, services := i.addr.services | addr.services))
  }

  /** A refreshed known entry stays as it is, or goes on to be linked once more. */
  function Stays(i: AddrInfo, addr: Address, rnd: nat): bool
    requires i.nRefCount >= 0
  {
    || addr.nTime == 0
    || (i.addr.nTime != 0 && addr.nTime <= i.addr.nTime)
    || i.fInTried
    || i.nRefCount == NEW_BUCKETS_PER_ADDRESS
    || rnd % Pow2(i.nRefCount) != 0
  }

  /** Whether an entry with `refs` references may take the slot of `existing`. */
  function Displaces(existing: AddrInfo, refs: int, nNow: int): bool {
    IsTerrible(existing, nNow) || (existing.nRefCount > 1 && refs == 0)
  }

  ghost predicate Linkable(h: Env, s: State, n: int) {
    && n in s.mapInfo && !s.mapInfo[n].fInTried
    && s.mapInfo[n].nRefCount < NEW_BUCKETS_PER_ADDRESS
    && InvG(h, s, if s.mapInfo[n].nRefCount == 0 then {n} else {}, 0)
  }

  lemma LinkSteps(h: Env, s: State, n: int, u: Slot)
    requires Linkable(h, s, n)
    requires u.bucket < NEW_BUCKET_COUNT && u == NewSlotIn(h, s.nKey, u.bucket, s.mapInfo[n].addr.service)
    requires u in s.news ==> s.news[u] != n
    ensures u in s.news ==> s.news[u] in s.mapInfo
    ensures var c := ClearNew(s, u);
            && n in c.mapInfo
            && c.mapInfo[n] == s.mapInfo[n].(nRandomPos := c.mapInfo[n].nRandomPos)
            && Inv(h, PlaceNew(c, n, u))
    ensures s.mapInfo[n].nRefCount == 0 ==> Inv(h, Delete(s, n))
  {
    var limbo := if s.mapInfo[n].nRefCount == 0 then {n} else {};
    if u in s.news {
      assert NewSlotOk(h, s.nKey, s.mapInfo, s.news, u);
    }
    ClearNewKeeps(h, s, u, limbo, 0);
    ClearNewFrame(h, s, u, limbo, 0, n);
    PlaceNewKeeps(h, ClearNew(s, u), n, u, limbo, 0);
    assert limbo - {n} == {};
    if s.mapInfo[n].nRefCount == 0 {
      DeleteKeeps(h, s, n, limbo, 0);
    }
  }

  /** What the source asserts on the way through linking `n`. */
  ghost predicate LinkReady(h: Env, s: State, n: int, source: nat) {
    && n in s.mapInfo && 0 <= n
    && var u := NewSlot(h, s.nKey, s.mapInfo[n].addr.service, source);
    && RandomOk(s.mapInfo, s.vRandom)
    && (s.mapInfo[n].nRefCount == 0 ==> !s.mapInfo[n].fInTried)
    && (u in s.news ==> Droppable(s, s.news[u]))
    && (u !in s.news || s.news[u] != n ==> n in ClearNew(s, u).mapInfo)
  }

  /** Give `n` one more slot if it can have it; forget it if it is left with none. */
  function Link(h: Env, s: State, n: int, source: nat, nNow: int): State
    requires LinkReady(h, s, n, source)
  {
    var i := s.mapInfo[n];
    var u := NewSlot(h, s.nKey, i.addr.service, source);
    if u in s.news && s.news[u] == n then s
    else if u !in s.news || Displaces(s.mapInfo[s.news[u]], i.nRefCount, nNow) then PlaceNew(ClearNew(s, u), n, u)
    else if i.nRefCount == 0 then Delete(s, n)
    else s
  }

  lemma LinkKeeps(h: Env, s: State, n: int, source: nat, nNow: int)
    requires Linkable(h, s, n)
    ensures LinkReady(h, s, n, source) && Inv(h, Link(h, s, n, source, nNow))
  {
    var u := NewSlot(h, s.nKey, s.mapInfo[n].addr.service, source);
    HolderDroppable(h, s, u, if s.mapInfo[n].nRefCount == 0 then {n} else {}, 0);
    if u in s.news && s.news[u] == n {
      LinkedHasRef(h, s, n, u);
    } else {
      LinkSteps(h, s, n, u);
    }
  }

  lemma LinkedHasRef(h: Env, s: State, n: int, u: Slot)
    requires Linkable(h, s, n) && u in s.news && s.news[u] == n
    ensures s.mapInfo[n].nRefCount != 0
  {
    HolderDroppable(h, s, u, if s.mapInfo[n].nRefCount == 0 then {n} else {}, 0);
  }

  /** The entry made for an address seen for the first time, counted as new. */
  function CreateNew(s: State, addr: Address, source: nat, nTimePenalty: int): State {
    var t := Create(s, addr, source);
    var n := s.nIdCount;
    var i := t.mapInfo[n];
    SetInfo(t, n, i.(addr := i.addr.(nTime := Max0(addr.nTime - nTimePenalty)))).(nNew := s.nNew + 1)
  }

  lemma CreateNewLinkable(h: Env, s: State, addr: Address, source: nat, nTimePenalty: int)
    requires Inv(h, s) && addr.service.ip !in s.mapAddr
    ensures Linkable(h, CreateNew(s, addr, source, nTimePenalty), s.nIdCount)
  {
    CreateKeeps(h, s, addr, source, {}, 0);
    assert {} + {s.nIdCount} == {s.nIdCount};
    var t := Create(s, addr, source);
    var i := t.mapInfo[s.nIdCount];
    SetInfoKeeps(h, t, s.nIdCount, i.(addr := i.addr.(nTime := Max0(addr.nTime - nTimePenalty))), {s.nIdCount}, 1);
  }

  /** The entry Add_ goes on to link, and the state it links it in. */
  function Prepared(s: State, addr: Address, source: nat, nTimePenalty: int, nNow: int): (State, int)
    requires addr.service.ip in s.mapAddr ==> s.mapAddr[addr.service.ip] in s.mapInfo
  {
    if addr.service.ip in s.mapAddr then
      var n := s.mapAddr[addr.service.ip];
      (SetInfo(s, n, Refresh(s.mapInfo[n], addr, nTimePenalty, nNow)), n)
    else (CreateNew(s, addr, source, nTimePenalty), s.nIdCount)
  }

  ghost predicate AddReady(h: Env, s: State, addr: Address, source: nat, nTimePenalty: int, nNow: int, rnd: nat) {
    && (addr.service.ip in s.mapAddr ==> s.mapAddr[addr.service.ip] in s.mapInfo)
    && var (t, n) := Prepared(s, addr, source, nTimePenalty, nNow);
    && t.mapInfo[n].nRefCount >= 0
    && (addr.service.ip !in s.mapAddr || !Stays(t.mapInfo[n], addr, rnd) ==> LinkReady(h, t, n, source))
  }

  function Add(h: Env, s: State, addr: Address, source: nat, nTimePenalty: int, nNow: int, rnd: nat): State
    requires AddReady(h, s, addr, source, nTimePenalty, nNow, rnd)
  {
    if !h.routable(addr.service.ip) then s
    else
      var (t, n) := Prepared(s, addr, source, nTimePenalty, nNow);
      if addr.service.ip in s.mapAddr && Stays(t.mapInfo[n], addr, rnd) then t else Link(h, t, n, source, nNow)
  }

  lemma AddKeeps(h: Env, s: State, addr: Address, source: nat, nTimePenalty: int, nNow: int, rnd: nat)
    requires Inv(h, s)
    ensures AddReady(h, s, addr, source, nTimePenalty, nNow, rnd)
    ensures Inv(h, Add(h, s, addr, source, nTimePenalty, nNow, rnd))
  {
    var (t, n) := Prepared(s, addr, source, nTimePenalty, nNow);
    PreparedLinkable(h, s, addr, source, nTimePenalty, nNow, rnd);
    if !(addr.service.ip in s.mapAddr && Stays(t.mapInfo[n], addr, rnd)) {
      LinkKeeps(h, t, n, source, nNow);
    }
  }

  lemma PreparedLinkable(h: Env, s: State, addr: Address, source: nat, nTimePenalty: int, nNow: int, rnd: nat)
    requires Inv(h, s)
    ensures addr.service.ip in s.mapAddr ==> s.mapAddr[addr.service.ip] in s.mapInfo
    ensures var (t, n) := Prepared(s, addr, source, nTimePenalty, nNow);
            && n in t.mapInfo && t.mapInfo[n].nRefCount >= 0 && t.mapInfo.Keys == s.mapInfo.Keys + {n}
            && (addr.service.ip in s.mapAddr && Stays(t.mapInfo[n], addr, rnd) ==> Inv(h, t))
            && (addr.service.ip in s.mapAddr && !Stays(t.mapInfo[n], addr, rnd) ==>
                  Linkable(h, t, n) && t.mapInfo[n].nRefCount > 0)
            && (addr.service.ip !in s.mapAddr ==> Linkable(h, t, n) && t.mapInfo[n].nRefCount == 0)
  {
    if addr.service.ip in s.mapAddr {
      var n := s.mapAddr[addr.service.ip];
      SetInfoKeeps(h, s, n, Refresh(s.mapInfo[n], addr, nTimePenalty, nNow), {}, 0);
    } else {
      CreateNewLinkable(h, s, addr, source, nTimePenalty);
    }
  }

  /** What Add_ answers. */
  predicate AddsNew(h: Env, s: State, addr: Address) {
    h.routable(addr.service.ip) && addr.service.ip !in s.mapAddr
  }

  // ---------------------------------------------------------------- GetAddr_

  function GetAddrLimit(n: nat): nat {
    if GETADDR_MAX_PCT * n / 100 > GETADDR_MAX then GETADDR_MAX else GETADDR_MAX_PCT * n / 100
  }

  /** The addresses of the first `n` entries of `v` that are worth passing on. */
  function Offer(m: map<int, AddrInfo>, v: seq<int>, n: nat, nNow: int): seq<Address>
    requires n <= |v| && forall k :: 0 <= k < |v| ==> v[k] in m
  {
    if n == 0 then []
    else Offer(m, v, n - 1, nNow) + (if IsTerrible(m[v[n - 1]], nNow) then [] else [m[v[n - 1]].addr])
  }

  /** The addresses found so far once the entry drawn for position `n` has been looked at. */
  function Collect(t: State, n: nat, out: seq<Address>, nNow: int): seq<Address>
    requires n < |t.vRandom| && t.vRandom[n] in t.mapInfo
  {
    var i := t.mapInfo[t.vRandom[n]];
    if IsTerrible(i, nNow) then out else out + [i.addr]
  }

  /** The position drawn to be swapped with position `n` of `size`. */
  function Draw(rnd: nat -> nat, n: nat, size: nat): (pos: nat)
    requires n < size
    ensures n <= pos < size
  {
    n + rnd(n) % (size - n)
  }

  /** Shuffle position `n` onwards, collecting until `limit` addresses are found. */
  function GetAddrFrom(s: State, n: nat, limit: nat, out: seq<Address>, rnd: nat -> nat,
                       nNow: int): (r: (State, seq<Address>))
    requires RandomOk(s.mapInfo, s.vRandom) && n <= |s.vRandom|
    decreases |s.vRandom| - n
  {
    if n == |s.vRandom| || |out| >= limit then (s, out)
    else
      var pos := Draw(rnd, n, |s.vRandom|);
      SwapRandomOk(s, n, pos);
      var t := SwapRandom(s, n, pos);
      GetAddrFrom(t, n + 1, limit, Collect(t, n, out, nNow), rnd, nNow)
  }

  function GetAddr(s: State, rnd: nat -> nat, nNow: int): (State, seq<Address>)
    requires RandomOk(s.mapInfo, s.vRandom)
  {
    GetAddrFrom(s, 0, GetAddrLimit(|s.vRandom|), [], rnd, nNow)
  }

  lemma SwapRandomFacts(s: State, i: nat, j: nat)
    requires i <= j < |s.vRandom| && s.vRandom[i] in s.mapInfo && s.vRandom[j] in s.mapInfo
    ensures var t := SwapRandom(s, i, j);
            && SameButPos(s.mapInfo, t.mapInfo)
            && t == s.(mapInfo := t.mapInfo, vRandom := t.vRandom)
            && |t.vRandom| == |s.vRandom| && t.vRandom[..i] == s.vRandom[..i]
  {
  }

  lemma SameButPosTrans(m: map<int, AddrInfo>, m': map<int, AddrInfo>, m'': map<int, AddrInfo>)
    requires SameButPos(m, m') && SameButPos(m', m'')
    ensures SameButPos(m, m'')
  {
  }

  lemma GetAddrUnfold(s: State, n: nat, limit: nat, out: seq<Address>, rnd: nat -> nat, nNow: int, pos: nat)
    requires RandomOk(s.mapInfo, s.vRandom) && n < |s.vRandom| && |out| < limit
    requires pos == Draw(rnd, n, |s.vRandom|)
    ensures var t := SwapRandom(s, n, pos);
            && RandomOk(t.mapInfo, t.vRandom) && n < |t.vRandom|
            && GetAddrFrom(s, n, limit, out, rnd, nNow)
                 == GetAddrFrom(t, n + 1, limit, Collect(t, n, out, nNow), rnd, nNow)
  {
    SwapRandomOk(s, n, pos);
  }

  /** One turn of the loop, named by what it keeps. */
  lemma GetAddrTurn(s: State, n: nat, limit: nat, out: seq<Address>, rnd: nat -> nat, nNow: int)
    returns (t: State)
    requires RandomOk(s.mapInfo, s.vRandom) && n < |s.vRandom| && |out| < limit
    ensures RandomOk(t.mapInfo, t.vRandom) && SameButPos(s.mapInfo, t.mapInfo)
    ensures t == s.(mapInfo := t.mapInfo, vRandom := t.vRandom)
    ensures |t.vRandom| == |s.vRandom| && t.vRandom[..n] == s.vRandom[..n]
    ensures GetAddrFrom(s, n, limit, out, rnd, nNow)
              == GetAddrFrom(t, n + 1, limit, Collect(t, n, out, nNow), rnd, nNow)
  {
    var pos := Draw(rnd, n, |s.vRandom|);
    GetAddrUnfold(s, n, limit, out, rnd, nNow, pos);
    SwapRandomFacts(s, n, pos);
    t := SwapRandom(s, n, pos);
    assert SameButPos(s.mapInfo, t.mapInfo);
  }

  lemma {:induction false} GetAddrFromSame(s: State, n: nat, limit: nat, out: seq<Address>, rnd: nat -> nat, nNow: int)
    requires RandomOk(s.mapInfo, s.vRandom) && n <= |s.vRandom|
    ensures var t := GetAddrFrom(s, n, limit, out, rnd, nNow).0;
            && RandomOk(t.mapInfo, t.vRandom) && SameButPos(s.mapInfo, t.mapInfo)
            && t == s.(mapInfo := t.mapInfo, vRandom := t.vRandom)
    decreases |s.vRandom| - n
  {
    if n < |s.vRandom| && |out| < limit {
      var t := GetAddrTurn(s, n, limit, out, rnd, nNow);
      var out' := Collect(t, n, out, nNow);
      GetAddrFromSame(t, n + 1, limit, out', rnd, nNow);
      SameButPosTrans(s.mapInfo, t.mapInfo, GetAddrFrom(t, n + 1, limit, out', rnd, nNow).0.mapInfo);
    }
  }

  lemma GetAddrKeeps(h: Env, s: State, rnd: nat -> nat, nNow: int)
    requires Inv(h, s)
    ensures Inv(h, GetAddr(s, rnd, nNow).0)
  {
    GetAddrFromSame(s, 0, GetAddrLimit(|s.vRandom|), [], rnd, nNow);
    var t := GetAddr(s, rnd, nNow).0;
    SameButPosKeeps(h, s, t.mapInfo, t.vRandom, {}, 0);
  }

  lemma OfferStep(m: map<int, AddrInfo>, m': map<int, AddrInfo>, v: seq<int>, v': seq<int>, n: nat, nNow: int)
    requires SameButPos(m, m') && n <= |v| == |v'| && v[..n] == v'[..n]
    requires forall k :: 0 <= k < |v| ==> v[k] in m && v'[k] in m'
    ensures Offer(m, v, n, nNow) == Offer(m', v', n, nNow)
  {
    if n > 0 {
      assert v[..n - 1] == v[..n][..n - 1];
      OfferStep(m, m', v, v', n - 1, nNow);
      assert v[..n][n - 1] == v'[..n][n - 1];
      SameEntry(m, m', v[n - 1]);
    }
  }

  /** What is returned is read off a prefix of the shuffled order, which stops early only at the limit. */
  lemma {:induction false} GetAddrFromIs(s: State, n: nat, limit: nat, out: seq<Address>, rnd: nat -> nat, nNow: int,
                                         end: State, r: seq<Address>)
    returns (k: nat)
    requires RandomOk(s.mapInfo, s.vRandom) && n <= |s.vRandom|
    requires out == Offer(s.mapInfo, s.vRandom, n, nNow) && |out| <= limit
    requires GetAddrFrom(s, n, limit, out, rnd, nNow) == (end, r)
    ensures RandomOk(end.mapInfo, end.vRandom) && n <= k <= |end.vRandom|
    ensures r == Offer(end.mapInfo, end.vRandom, k, nNow)
    ensures |r| <= limit && (|r| == limit || k == |end.vRandom|)
    decreases |s.vRandom| - n
  {
    if n < |s.vRandom| && |out| < limit {
      var t, out' := OfferTurn(s, n, limit, out, rnd, nNow);
      k := GetAddrFromIs(t, n + 1, limit, out', rnd, nNow, end, r);
    } else {
      k := n;
    }
  }

  lemma OfferTurn(s: State, n: nat, limit: nat, out: seq<Address>, rnd: nat -> nat, nNow: int)
    returns (t: State, out': seq<Address>)
    requires RandomOk(s.mapInfo, s.vRandom) && n < |s.vRandom|
    requires out == Offer(s.mapInfo, s.vRandom, n, nNow) && |out| < limit
    ensures RandomOk(t.mapInfo, t.vRandom) && |t.vRandom| == |s.vRandom|
    ensures out' == Offer(t.mapInfo, t.vRandom, n + 1, nNow) && |out'| <= limit
    ensures GetAddrFrom(s, n, limit, out, rnd, nNow) == GetAddrFrom(t, n + 1, limit, out', rnd, nNow)
  {
    t := GetAddrTurn(s, n, limit, out, rnd, nNow);
    CollectIs(s, t, n, out, nNow);
    out' := Collect(t, n, out, nNow);
  }

  lemma CollectIs(s: State, t: State, n: nat, out: seq<Address>, nNow: int)
    requires RandomOk(s.mapInfo, s.vRandom) && RandomOk(t.mapInfo, t.vRandom) && SameButPos(s.mapInfo, t.mapInfo)
    requires n < |s.vRandom| == |t.vRandom| && s.vRandom[..n] == t.vRandom[..n]
    requires out == Offer(s.mapInfo, s.vRandom, n, nNow)
    ensures Collect(t, n, out, nNow) == Offer(t.mapInfo, t.vRandom, n + 1, nNow)
    ensures |Collect(t, n, out, nNow)| <= |out| + 1
  {
    OfferStep(s.mapInfo, t.mapInfo, s.vRandom, t.vRandom, n, nNow);
  }

  lemma {:induction false} OfferMember(m: map<int, AddrInfo>, v: seq<int>, n: nat, nNow: int, a: Address)
    requires n <= |v| && forall k :: 0 <= k < |v| ==> v[k] in m
    ensures a in Offer(m, v, n, nNow) <==> exists k :: 0 <= k < n && m[v[k]].addr == a && !IsTerrible(m[v[k]], nNow)
  {
    if n > 0 {
      OfferMember(m, v, n - 1, nNow, a);
      if a in Offer(m, v, n, nNow) && a !in Offer(m, v, n - 1, nNow) {
        assert v[n - 1] in m && m[v[n - 1]].addr == a;
      }
    }
  }

  lemma {:induction false} OfferDistinct(m: map<int, AddrInfo>, v: seq<int>, n: nat, a: map<nat, int>, nNow: int)
    requires n <= |v| && RandomOk(m, v) && AddrOk(m, a)
    ensures Distinct(Offer(m, v, n, nNow))
  {
    if n > 0 {
      OfferDistinct(m, v, n - 1, a, nNow);
      var q := Offer(m, v, n - 1, nNow);
      var last := v[n - 1];
      forall j | 0 <= j < |q| ensures q[j].service.ip != m[last].Ip() {
        assert q[j] in q;
        OfferMember(m, v, n - 1, nNow, q[j]);
        var k :| 0 <= k < n - 1 && m[v[k]].addr == q[j];
        assert v[k] in m && last in m;
        AddrOkApart(m, v, a, k, n - 1);
      }
    }
  }

  lemma AddrOkApart(m: map<int, AddrInfo>, v: seq<int>, a: map<nat, int>, j: nat, k: nat)
    requires RandomOk(m, v) && AddrOk(m, a) && j < k < |v|
    ensures m[v[j]].Ip() != m[v[k]].Ip()
  {
    var p, q := v[j], v[k];
    assert p in m && m[p].nRandomPos == j && q in m && m[q].nRandomPos == k;
    assert a[m[p].Ip()] == p && a[m[q].Ip()] == q;
  }

  ghost predicate Distinct(r: seq<Address>) {
    forall j, k :: 0 <= j < k < |r| ==> r[j].service.ip != r[k].service.ip
  }

  ghost predicate Worth(m: map<int, AddrInfo>, a: Address, nNow: int) {
    exists n :: n in m && m[n].addr == a && !IsTerrible(m[n], nNow)
  }

  lemma WorthSame(m: map<int, AddrInfo>, m': map<int, AddrInfo>, a: Address, nNow: int)
    requires SameButPos(m, m')
    ensures Worth(m, a, nNow) <==> Worth(m', a, nNow)
  {
  }

  lemma OfferWorth(m: map<int, AddrInfo>, v: seq<int>, k: nat, a: Address, nNow: int)
    requires RandomOk(m, v) && k <= |v|
    ensures a in Offer(m, v, k, nNow) ==> Worth(m, a, nNow)
    ensures k == |v| && Worth(m, a, nNow) ==> a in Offer(m, v, k, nNow)
  {
    OfferMember(m, v, k, nNow, a);
    if j :| 0 <= j < k && m[v[j]].addr == a && !IsTerrible(m[v[j]], nNow) {
      var n := v[j];
      assert n in m && m[n].addr == a && !IsTerrible(m[n], nNow);
    }
    if k == |v| && Worth(m, a, nNow) {
      var n :| n in m && m[n].addr == a && !IsTerrible(m[n], nNow);
      assert v[m[n].nRandomPos] == n;
    }
  }

  /** GetAddr_ answers with distinct known addresses, none of them terrible, within the
      limit, and leaves one out only when the limit is reached.  It only reorders. */
  lemma GetAddrMeaning(h: Env, s: State, rnd: nat -> nat, nNow: int)
    requires Inv(h, s)
    ensures var (t, r) := GetAddr(s, rnd, nNow);
            && SameButPos(s.mapInfo, t.mapInfo) && t == s.(mapInfo := t.mapInfo, vRandom := t.vRandom)
            && 100 * |r| <= 23 * |s.vRandom| && |r| <= 2500
            && (forall j, k :: 0 <= j < k < |r| ==> r[j].service.ip != r[k].service.ip)
            && (forall a :: a in r ==> Worth(s.mapInfo, a, nNow))
            && (100 * (|r| + 1) <= 23 * |s.vRandom| && |r| < 2500 ==> forall a :: Worth(s.mapInfo, a, nNow) ==> a in r)
  {
    var (t, r) := GetAddr(s, rnd, nNow);
    var k := GetAddrFromIs(s, 0, GetAddrLimit(|s.vRandom|), [], rnd, nNow, t, r);
    GetAddrFromSame(s, 0, GetAddrLimit(|s.vRandom|), [], rnd, nNow);
    SameButPosAddr(s.mapInfo, t.mapInfo, s.mapAddr);
    OfferDistinct(t.mapInfo, t.vRandom, k, s.mapAddr, nNow);
    forall a ensures a in r ==> Worth(s.mapInfo, a, nNow)
             ensures k == |t.vRandom| && Worth(s.mapInfo, a, nNow) ==> a in r {
      OfferWorth(t.mapInfo, t.vRandom, k, a, nNow);
      WorthSame(s.mapInfo, t.mapInfo, a, nNow);
    }
  }

  // ---------------------------------------------------------------- what the operations mean

  /** The ids forgotten when `slot` is cleared in table `t`. */
  function Forgotten(m: map<int, AddrInfo>, t: Table, slot: Slot): set<int> {
    if slot in t && t[slot] in m && m[t[slot]].nRefCount == 1 then {t[slot]} else {}
  }

  /** Marking a new entry good takes it out of every new slot and puts it in its tried
      slot, when that is free. */
  lemma MakeTriedFree(h: Env, s: State, n: int)
    requires Inv(h, s) && n in s.mapInfo && !s.mapInfo[n].fInTried
    requires TriedSlot(h, s.nKey, s.mapInfo[n].addr.service) !in s.tried
    ensures Promotable(h, s, n) && MakeTried(h, s, n) == s.(
              mapInfo := s.mapInfo[n := s.mapInfo[n].(fInTried := true, nRefCount := 0)],
              tried := s.tried[TriedSlot(h, s.nKey, s.mapInfo[n].addr.service) := n],
              news := s.news - Occ(s.news, n), nTried := s.nTried + 1, nNew := s.nNew - 1)
  {
    MakeTriedOk(h, s, n);
    PlaceErased(s, n, TriedSlot(h, s.nKey, s.mapInfo[n].addr.service));
  }

  lemma PlaceErased(s: State, n: int, slot: Slot)
    requires n in s.mapInfo
    ensures PlaceTried(Erased(s, n), n, slot) == s.(
              mapInfo := s.mapInfo[n := s.mapInfo[n].(fInTried := true, nRefCount := 0)],
              tried := s.tried[slot := n],
              news := s.news - Occ(s.news, n), nTried := s.nTried + 1, nNew := s.nNew - 1)
  {
  }

  /** When the tried slot is taken, its holder `e` goes to its home slot in the new table,
      and nothing else moves. */
  lemma MakeTriedTaken(h: Env, s: State, n: int, e: int)
    requires Inv(h, s) && n in s.mapInfo && !s.mapInfo[n].fInTried
    requires var slot := TriedSlot(h, s.nKey, s.mapInfo[n].addr.service);
             slot in s.tried && s.tried[slot] == e && e in s.mapInfo
    ensures Promotable(h, s, n)
    ensures var r := MakeTried(h, s, n);
            var cleared := s.news - Occ(s.news, n);
            var u := HomeSlot(h, s, e);
            && r.tried == s.tried[TriedSlot(h, s.nKey, s.mapInfo[n].addr.service) := n]
            && r.news == cleared[u := e]
            && n in r.mapInfo
            && r.mapInfo[n] == s.mapInfo[n].(fInTried := true, nRefCount := 0, nRandomPos := r.mapInfo[n].nRandomPos)
  {
    MakeTriedOk(h, s, n);
    var t := Erased(s, n);
    var u := HomeSlot(h, s, e);
    EvictIsNot(h, t, n, e);
    EvictTables(h, t, n, e, u);
    MapPut(s.tried, TriedSlot(h, s.nKey, s.mapInfo[n].addr.service), n);
  }

  /** The holder of that home slot is forgotten if it had no other, and nobody else is. */
  lemma MakeTriedForgets(h: Env, s: State, n: int, e: int)
    requires Inv(h, s) && n in s.mapInfo && !s.mapInfo[n].fInTried
    requires var slot := TriedSlot(h, s.nKey, s.mapInfo[n].addr.service);
             slot in s.tried && s.tried[slot] == e && e in s.mapInfo
    ensures Promotable(h, s, n)
    ensures var r := MakeTried(h, s, n);
            && r.mapInfo.Keys == s.mapInfo.Keys - Forgotten(s.mapInfo, s.news - Occ(s.news, n), HomeSlot(h, s, e))
            && r.nTried == s.nTried
  {
    MakeTriedOk(h, s, n);
    ErasedEvictKeys(h, s, n, e);
    PlaceTriedKeys(Evict(h, Erased(s, n), n), n, TriedSlot(h, s.nKey, s.mapInfo[n].addr.service));
  }

  lemma ErasedEvictKeys(h: Env, s: State, n: int, e: int)
    requires n in s.mapInfo && InvG(h, Erased(s, n), {n}, 1)
    requires var slot := TriedSlot(h, s.nKey, s.mapInfo[n].addr.service);
             slot in s.tried && s.tried[slot] == e && e in s.mapInfo
    ensures var r := Evict(h, Erased(s, n), n);
            && r.mapInfo.Keys == s.mapInfo.Keys - Forgotten(s.mapInfo, s.news - Occ(s.news, n), HomeSlot(h, s, e))
            && r.nTried == s.nTried - 1
  {
    var t := Erased(s, n);
    EvictIsNot(h, t, n, e);
    EvictKeys(h, t, n, e, HomeSlot(h, s, e));
    ForgottenErased(s, n, HomeSlot(h, s, e));
  }

  lemma PlaceTriedKeys(s: State, n: int, u: Slot)
    requires n in s.mapInfo
    ensures PlaceTried(s, n, u).mapInfo.Keys == s.mapInfo.Keys && PlaceTried(s, n, u).nTried == s.nTried + 1
  {
  }

  lemma EvictIsNot(h: Env, s: State, n: int, e: int)
    requires InvG(h, s, {n}, 1) && n in s.mapInfo
    requires var slot := TriedSlot(h, s.nKey, s.mapInfo[n].addr.service);
             slot in s.tried && s.tried[slot] == e
    ensures e != n
  {
  }

  lemma ForgottenErased(s: State, n: int, u: Slot)
    requires n in s.mapInfo
    ensures var t := EraseNew(s, n);
            Forgotten(t.mapInfo, t.news, u) == Forgotten(s.mapInfo, s.news - Occ(s.news, n), u)
  {
  }

  lemma EvictTables(h: Env, s: State, n: int, e: int, u: Slot)
    requires InvG(h, s, {n}, 1) && n in s.mapInfo
    requires var slot := TriedSlot(h, s.nKey, s.mapInfo[n].addr.service);
             slot in s.tried && s.tried[slot] == e
    requires e in s.mapInfo && u == HomeSlot(h, s, e)
    ensures var r := Evict(h, s, n);
            && r.tried == s.tried - {TriedSlot(h, s.nKey, s.mapInfo[n].addr.service)}
            && r.news == s.news[u := e]
  {
    EvictSteps(h, s, n);
    MapPut(s.news, u, e);
  }

  lemma MapPut<K, V>(m: map<K, V>, k: K, v: V)
    ensures (m - {k})[k := v] == m[k := v]
  {
  }

  lemma EvictKeys(h: Env, s: State, n: int, e: int, u: Slot)
    requires InvG(h, s, {n}, 1) && n in s.mapInfo
    requires var slot := TriedSlot(h, s.nKey, s.mapInfo[n].addr.service);
             slot in s.tried && s.tried[slot] == e
    requires e in s.mapInfo && u == HomeSlot(h, s, e)
    ensures Evict(h, s, n).mapInfo.Keys == s.mapInfo.Keys - Forgotten(s.mapInfo, s.news, u)
    ensures Evict(h, s, n).nTried == s.nTried - 1
  {
    var slot := TriedSlot(h, s.nKey, s.mapInfo[n].addr.service);
    EvictReady(h, s, n);
    UntriedKeys(h, s, n, slot, e, u);
    PlaceNewKeys(ClearNew(Untry(s, slot), u), e, u);
  }

  lemma PlaceNewKeys(s: State, n: int, u: Slot)
    requires n in s.mapInfo
    ensures PlaceNew(s, n, u).mapInfo.Keys == s.mapInfo.Keys && PlaceNew(s, n, u).nTried == s.nTried
  {
  }

  lemma UntriedKeys(h: Env, s: State, n: int, slot: Slot, e: int, u: Slot)
    requires slot in s.tried && s.tried[slot] == e && e in s.mapInfo
    requires InvG(h, Untry(s, slot), {n, e}, 2)
    requires u in s.news ==> s.news[u] in s.mapInfo
    ensures ClearNew(Untry(s, slot), u).mapInfo.Keys == s.mapInfo.Keys - Forgotten(s.mapInfo, s.news, u)
    ensures ClearNew(Untry(s, slot), u).nTried == s.nTried - 1
  {
    var t := Untry(s, slot);
    ClearNewGone(t, u);
    LimboHasNoSlot(h, t, e, {n, e}, 2);
  }

  lemma ClearNewGone(s: State, slot: Slot)
    requires RandomOk(s.mapInfo, s.vRandom)
    requires slot in s.news ==> s.news[slot] in s.mapInfo
    ensures ClearNew(s, slot).mapInfo.Keys == s.mapInfo.Keys - Forgotten(s.mapInfo, s.news, slot)
    ensures ClearNew(s, slot).nTried == s.nTried
  {
    if slot in s.news {
      var n := s.news[slot];
      var i := s.mapInfo[n];
      if i.nRefCount == 1 {
        var t := SetInfo(s, n, i.(nRefCount := 0)).(news := s.news - {slot});
        RandomOkSet(s.mapInfo, s.vRandom, n, i.(nRefCount := 0));
        DeleteGone(t, n);
      }
    }
  }

  lemma RandomOkSet(m: map<int, AddrInfo>, v: seq<int>, n: int, i: AddrInfo)
    requires RandomOk(m, v) && n in m && i.nRandomPos == m[n].nRandomPos
    ensures RandomOk(m[n := i], v) && m[n := i].Keys == m.Keys
  {
  }

  /** Linking takes the free or displaceable slot, forgetting its holder if that had no
      other, or else leaves the tables alone, forgetting `n` if it has no slot at all. */
  lemma LinkMeaning(h: Env, s: State, n: int, source: nat, nNow: int)
    requires Linkable(h, s, n)
    ensures LinkReady(h, s, n, source)
    ensures var r := Link(h, s, n, source, nNow);
            var i := s.mapInfo[n];
            var u := NewSlot(h, s.nKey, i.addr.service, source);
            && r.tried == s.tried && r.nTried == s.nTried
            && (u in s.news ==> s.news[u] in s.mapInfo)
            && (u in s.news && s.news[u] == n ==> r == s)
            && (u !in s.news || s.news[u] != n ==>
                  if u !in s.news || Displaces(s.mapInfo[s.news[u]], i.nRefCount, nNow)
                  then r.news == s.news[u := n] && r.mapInfo.Keys == s.mapInfo.Keys - Forgotten(s.mapInfo, s.news, u)
                  else r.news == s.news && r.mapInfo.Keys == s.mapInfo.Keys - (if i.nRefCount == 0 then {n} else {}))
  {
    var i := s.mapInfo[n];
    var u := NewSlot(h, s.nKey, i.addr.service, source);
    var limbo := if i.nRefCount == 0 then {n} else {};
    LinkKeeps(h, s, n, source, nNow);
    if u in s.news && s.news[u] == n {
    } else if u !in s.news || Displaces(s.mapInfo[s.news[u]], i.nRefCount, nNow) {
      LinkSteps(h, s, n, u);
      ClearNewGone(s, u);
      ClearNewFrame(h, s, u, limbo, 0, n);
      PlaceNewKeys(ClearNew(s, u), n, u);
      MapPut(s.news, u, n);
    } else if i.nRefCount == 0 {
      DeleteGone(s, n);
    }
  }

  lemma DeleteGone(s: State, n: int)
    requires n in s.mapInfo && RandomOk(s.mapInfo, s.vRandom)
    ensures Delete(s, n).mapInfo.Keys == s.mapInfo.Keys - {n} && Delete(s, n).nTried == s.nTried
  {
  }

  lemma LinkForgetsOnlyTerrible(h: Env, s: State, n: int, source: nat, nNow: int, k: int)
    requires Linkable(h, s, n) && k in s.mapInfo && k != n
    requires LinkReady(h, s, n, source) && k !in Link(h, s, n, source, nNow).mapInfo
    ensures IsTerrible(s.mapInfo[k], nNow) && s.mapInfo[k].nRefCount == 1
    ensures var u := NewSlot(h, s.nKey, s.mapInfo[n].addr.service, source); u in s.news && s.news[u] == k
  {
    LinkMeaning(h, s, n, source, nNow);
    assert k in s.mapInfo.Keys;
  }

  /** Adding an address forgets at most the entry whose slot it takes, and that only if it is terrible. */
  lemma AddForgetsOnlyTerrible(h: Env, s: State, addr: Address, source: nat, nTimePenalty: int, nNow: int, rnd: nat,
                               k: int)
    requires Inv(h, s) && k in s.mapInfo
    requires AddReady(h, s, addr, source, nTimePenalty, nNow, rnd)
    requires k !in Add(h, s, addr, source, nTimePenalty, nNow, rnd).mapInfo
    ensures IsTerrible(s.mapInfo[k], nNow) && s.mapInfo[k].nRefCount == 1 && k in s.news.Values
  {
    var (t, n) := Prepared(s, addr, source, nTimePenalty, nNow);
    PreparedLinkable(h, s, addr, source, nTimePenalty, nNow, rnd);
    assert k in t.mapInfo.Keys;
    if k == n {
      LinkedStays(h, t, n, source, nNow);
    } else {
      LinkForgetsOnlyTerrible(h, t, n, source, nNow, k);
    }
  }

  lemma LinkedStays(h: Env, s: State, n: int, source: nat, nNow: int)
    requires Linkable(h, s, n) && s.mapInfo[n].nRefCount > 0
    ensures LinkReady(h, s, n, source) && n in Link(h, s, n, source, nNow).mapInfo
  {
    LinkMeaning(h, s, n, source, nNow);
    assert n in s.mapInfo.Keys;
  }

  /** An address seen for the first time is known afterwards unless its slot is held by an entry it may not displace. */
  lemma AddMakesKnown(h: Env, s: State, addr: Address, source: nat, nTimePenalty: int, nNow: int, rnd: nat)
    requires Inv(h, s) && AddsNew(h, s, addr)
    ensures AddReady(h, s, addr, source, nTimePenalty, nNow, rnd)
    ensures var r := Add(h, s, addr, source, nTimePenalty, nNow, rnd);
            var u := NewSlot(h, s.nKey, addr.service, source);
            && (u in s.news ==> s.news[u] in s.mapInfo)
            && (s.nIdCount in r.mapInfo <==> u !in s.news || Displaces(s.mapInfo[s.news[u]], 0, nNow))
            && r.tried == s.tried
            && r.news == if s.nIdCount in r.mapInfo then s.news[u := s.nIdCount] else s.news
  {
    AddKeeps(h, s, addr, source, nTimePenalty, nNow, rnd);
    CreateNewLinkable(h, s, addr, source, nTimePenalty);
    var t := CreateNew(s, addr, source, nTimePenalty);
    var n := s.nIdCount;
    HolderDroppable(h, s, NewSlot(h, s.nKey, addr.service, source), {}, 0);
    LinkMeaning(h, t, n, source, nNow);
    assert n in t.mapInfo.Keys;
  }

  // ---------------------------------------------------------------- runs

  datatype Op =
    | AddOp(addr: Address, source: nat, nTimePenalty: int, nNow: int, rnd: nat)
    | GoodOp(a: Service, nTime: int)
    | AttemptOp(a: Service, nTime: int)
    | ConnectedOp(a: Service, nTime: int)
    | GetAddrOp(draws: nat -> nat, nNow: int)

  function EmptyState(nKey: nat): State {
    State(nKey, 0, map[], map[], [], 0, map[], 0, map[])
  }

  function Step(h: Env, s: State, op: Op): (r: State)
    requires Inv(h, s)
    ensures Inv(h, r)
  {
    match op
    case AddOp(addr, source, nTimePenalty, nNow, rnd) =>
      AddKeeps(h, s, addr, source, nTimePenalty, nNow, rnd); Add(h, s, addr, source, nTimePenalty, nNow, rnd)
    case GoodOp(a, nTime) => GoodKeeps(h, s, a, nTime); Good(h, s, a, nTime)
    case AttemptOp(a, nTime) => AttemptKeeps(h, s, a, nTime); Attempt(s, a, nTime)
    case ConnectedOp(a, nTime) => ConnectedKeeps(h, s, a, nTime); Connected(s, a, nTime)
    case GetAddrOp(rnd, nNow) => GetAddrKeeps(h, s, rnd, nNow); GetAddr(s, rnd, nNow).0
  }

  /** The states after each prefix of a run from the empty manager; every operation is
      total on consistent states, so that a run exists says no assert fires on the way. */
  function Run(h: Env, nKey: nat, ops: seq<Op>): (r: State)
    ensures Inv(h, r)
  {
    if ops == [] then EmptyInv(h, nKey); EmptyState(nKey)
    else Step(h, Run(h, nKey, ops[..|ops| - 1]), ops[|ops| - 1])
  }

  /** No operation touches the key, so a run ends with the key it began with: Check_ finds a null
      key exactly where there was one from the start. */
  lemma {:induction false} RunKey(h: Env, nKey: nat, ops: seq<Op>)
    ensures Run(h, nKey, ops).nKey == nKey
  {
    if ops != [] {
      RunKey(h, nKey, ops[..|ops| - 1]);
      StepKey(h, Run(h, nKey, ops[..|ops| - 1]), ops[|ops| - 1]);
    }
  }

  lemma StepKey(h: Env, s: State, op: Op)
    requires Inv(h, s)
    ensures Step(h, s, op).nKey == s.nKey
  {
    match op
    case AddOp(addr, source, nTimePenalty, nNow, rnd) =>
      var (t, n) := Prepared(s, addr, source, nTimePenalty, nNow);
      AddKeeps(h, s, addr, source, nTimePenalty, nNow, rnd);
      if addr.service.ip !in s.mapAddr || !Stays(t.mapInfo[n], addr, rnd) { LinkKey(h, t, n, source, nNow); }
    case GoodOp(a, nTime) =>
      GoodKeeps(h, s, a, nTime);
      if Knows(s, a) && !s.mapInfo[s.mapAddr[a.ip]].fInTried {
        var n := s.mapAddr[a.ip];
        MakeTriedKey(h, SetInfo(s, n, Marked(s.mapInfo[n], nTime)), n);
      }
    case AttemptOp(a, nTime) =>
    case ConnectedOp(a, nTime) =>
    case GetAddrOp(rnd, nNow) => GetAddrFromSame(s, 0, GetAddrLimit(|s.vRandom|), [], rnd, nNow);
  }

  lemma ClearNewKey(s: State, u: Slot)
    requires RandomOk(s.mapInfo, s.vRandom) && (u in s.news ==> s.news[u] in s.mapInfo)
    ensures ClearNew(s, u).nKey == s.nKey
  {
  }

  lemma LinkKey(h: Env, s: State, n: int, source: nat, nNow: int)
    requires LinkReady(h, s, n, source)
    ensures Link(h, s, n, source, nNow).nKey == s.nKey
  {
    ClearNewKey(s, NewSlot(h, s.nKey, s.mapInfo[n].addr.service, source));
  }

  lemma MakeTriedKey(h: Env, s: State, n: int)
    requires Promotable(h, s, n)
    ensures MakeTried(h, s, n).nKey == s.nKey
  {
  }

  lemma EmptyInv(h: Env, nKey: nat)
    ensures Inv(h, EmptyState(nKey))
  {
  }

  /** What Check_ asks of the times: codes -1, -6 and -8. */
  ghost predicate TimesOk(m: map<int, AddrInfo>) {
    forall n :: n in m ==> m[n].nLastTry >= 0 && m[n].nLastSuccess >= 0 && (m[n].fInTried ==> m[n].nLastSuccess != 0)
  }

  lemma DeleteTimes(s: State, n: int)
    requires n in s.mapInfo && RandomOk(s.mapInfo, s.vRandom) && TimesOk(s.mapInfo)
    ensures TimesOk(Delete(s, n).mapInfo)
  {
  }

  lemma ClearNewTimes(h: Env, s: State, u: Slot, limbo: set<int>, d: int)
    requires InvG(h, s, limbo, d) && (u in s.news ==> s.news[u] in s.mapInfo) && TimesOk(s.mapInfo)
    ensures TimesOk(ClearNew(s, u).mapInfo)
  {
    if u in s.news {
      DropRefKeeps(h, s, u, limbo, d);
      var n := s.news[u];
      if s.mapInfo[n].nRefCount == 1 {
        DeleteTimes(SetInfo(s, n, s.mapInfo[n].(nRefCount := 0)).(news := s.news - {u}), n);
      }
    }
  }

  lemma LinkTimes(h: Env, s: State, n: int, source: nat, nNow: int)
    requires Linkable(h, s, n) && TimesOk(s.mapInfo)
    ensures LinkReady(h, s, n, source) && TimesOk(Link(h, s, n, source, nNow).mapInfo)
  {
    var i := s.mapInfo[n];
    var u := NewSlot(h, s.nKey, i.addr.service, source);
    LinkKeeps(h, s, n, source, nNow);
    if u !in s.news || s.news[u] != n {
      assert (u in s.news ==> s.news[u] in s.mapInfo) && n in ClearNew(s, u).mapInfo by { LinkSteps(h, s, n, u); }
      ClearNewTimes(h, s, u, if i.nRefCount == 0 then {n} else {}, 0);
      PlaceNewTimes(ClearNew(s, u), n, u);
      if i.nRefCount == 0 {
        DeleteTimes(s, n);
      }
    }
  }

  lemma PlaceNewTimes(s: State, n: int, u: Slot)
    requires n in s.mapInfo && TimesOk(s.mapInfo)
    ensures TimesOk(PlaceNew(s, n, u).mapInfo)
  {
  }

  lemma EvictTimes(h: Env, s: State, n: int)
    requires InvG(h, s, {n}, 1) && n in s.mapInfo && TimesOk(s.mapInfo)
    ensures TimesOk(Evict(h, s, n).mapInfo)
  {
    var slot := TriedSlot(h, s.nKey, s.mapInfo[n].addr.service);
    if slot in s.tried {
      var e := s.tried[slot];
      EvictReady(h, s, n);
      EvictStepTimes(h, s, slot, e, {n, e}, 2);
    }
  }

  lemma EvictStepTimes(h: Env, s: State, slot: Slot, e: int, limbo: set<int>, d: int)
    requires Evictable(h, s, slot) && s.tried[slot] == e && TimesOk(s.mapInfo)
    requires InvG(h, Untry(s, slot), limbo, d)
    ensures TimesOk(EvictStep(h, s, slot).mapInfo)
  {
    var t, u := Untry(s, slot), HomeSlot(h, s, e);
    UntryTimes(s, slot);
    ClearNewTimes(h, t, u, limbo, d);
    PlaceNewTimes(ClearNew(t, u), e, u);
  }

  lemma UntryTimes(s: State, slot: Slot)
    requires slot in s.tried && s.tried[slot] in s.mapInfo && TimesOk(s.mapInfo)
    ensures TimesOk(Untry(s, slot).mapInfo)
  {
  }

  lemma MakeTriedTimes(h: Env, s: State, n: int)
    requires Inv(h, s) && n in s.mapInfo && !s.mapInfo[n].fInTried && TimesOk(s.mapInfo)
    ensures Promotable(h, s, n)
    ensures TimesOk(MakeTried(h, s, n).mapInfo) <==> s.mapInfo[n].nLastSuccess != 0
  {
    MakeTriedOk(h, s, n);
    ErasedEvictTimes(h, s, n);
    PlaceTriedTimes(Evict(h, Erased(s, n), n), n, TriedSlot(h, s.nKey, s.mapInfo[n].addr.service));
  }

  lemma ErasedEvictTimes(h: Env, s: State, n: int)
    requires n in s.mapInfo && InvG(h, Erased(s, n), {n}, 1) && TimesOk(s.mapInfo)
    ensures TimesOk(Evict(h, Erased(s, n), n).mapInfo)
  {
    EvictTimes(h, Erased(s, n), n);
  }

  lemma PlaceTriedTimes(s: State, n: int, slot: Slot)
    requires n in s.mapInfo && TimesOk(s.mapInfo)
    ensures TimesOk(PlaceTried(s, n, slot).mapInfo) <==> s.mapInfo[n].nLastSuccess != 0
  {
    assert n in PlaceTried(s, n, slot).mapInfo && PlaceTried(s, n, slot).mapInfo[n].fInTried;
  }

  /** Good_ keeps the times Check_ asks for exactly when it is given a positive time or does not apply. */
  lemma GoodTimes(h: Env, s: State, a: Service, nTime: int)
    requires Inv(h, s) && TimesOk(s.mapInfo)
    ensures GoodReady(h, s, a, nTime)
    ensures TimesOk(Good(h, s, a, nTime).mapInfo) <==> (nTime > 0 || !Knows(s, a))
  {
    GoodKeeps(h, s, a, nTime);
    if Knows(s, a) {
      var n := s.mapAddr[a.ip];
      var i := Marked(s.mapInfo[n], nTime);
      SetInfoKeeps(h, s, n, i, {}, 0);
      SetTimes(s.mapInfo, n, i);
      if !i.fInTried {
        MarkedTimes(h, SetInfo(s, n, i), n, nTime);
      }
    }
  }

  lemma SetTimes(m: map<int, AddrInfo>, n: int, i: AddrInfo)
    requires TimesOk(m) && n in m
    ensures TimesOk(m[n := i]) <==> i.nLastTry >= 0 && i.nLastSuccess >= 0 && (i.fInTried ==> i.nLastSuccess != 0)
  {
    assert m[n := i][n] == i;
  }

  lemma MarkedTimes(h: Env, s: State, n: int, nTime: int)
    requires Inv(h, s) && n in s.mapInfo && !s.mapInfo[n].fInTried && s.mapInfo[n].nLastSuccess == nTime
    requires nTime >= 0 ==> TimesOk(s.mapInfo)
    ensures Promotable(h, s, n)
    ensures TimesOk(MakeTried(h, s, n).mapInfo) <==> nTime > 0
  {
    if nTime >= 0 {
      MakeTriedTimes(h, s, n);
    } else {
      MakeTriedHas(h, s, n);
    }
  }

  lemma MakeTriedHas(h: Env, s: State, n: int)
    requires Inv(h, s) && n in s.mapInfo && !s.mapInfo[n].fInTried
    ensures Promotable(h, s, n)
    ensures var r := MakeTried(h, s, n); n in r.mapInfo && r.mapInfo[n].nLastSuccess == s.mapInfo[n].nLastSuccess
  {
    MakeTriedOk(h, s, n);
  }

  /** The times an operation is called with satisfy what Check_ later asks for. */
  predicate TimesGiven(op: Op) {
    match op
    case GoodOp(_, nTime) => nTime > 0
    case AttemptOp(_, nTime) => nTime >= 0
    case _ => true
  }

  lemma AddTimes(h: Env, s: State, addr: Address, source: nat, nTimePenalty: int, nNow: int, rnd: nat)
    requires Inv(h, s) && TimesOk(s.mapInfo)
    ensures AddReady(h, s, addr, source, nTimePenalty, nNow, rnd)
    ensures TimesOk(Add(h, s, addr, source, nTimePenalty, nNow, rnd).mapInfo)
  {
    AddKeeps(h, s, addr, source, nTimePenalty, nNow, rnd);
    var (t, n) := Prepared(s, addr, source, nTimePenalty, nNow);
    if addr.service.ip !in s.mapAddr || !Stays(t.mapInfo[n], addr, rnd) {
      assert Linkable(h, t, n) by { PreparedLinkable(h, s, addr, source, nTimePenalty, nNow, rnd); }
      PreparedTimes(h, s, addr, source, nTimePenalty, nNow);
      LinkTimes(h, t, n, source, nNow);
    }
  }

  lemma PreparedTimes(h: Env, s: State, addr: Address, source: nat, nTimePenalty: int, nNow: int)
    requires TimesOk(s.mapInfo) && (addr.service.ip in s.mapAddr ==> s.mapAddr[addr.service.ip] in s.mapInfo)
    ensures TimesOk(Prepared(s, addr, source, nTimePenalty, nNow).0.mapInfo)
  {
  }

  lemma StepTimes(h: Env, s: State, op: Op)
    requires Inv(h, s) && TimesOk(s.mapInfo) && TimesGiven(op)
    ensures TimesOk(Step(h, s, op).mapInfo)
  {
    match op
    case AddOp(addr, source, nTimePenalty, nNow, rnd) => AddTimes(h, s, addr, source, nTimePenalty, nNow, rnd);
    case GoodOp(a, nTime) => GoodTimes(h, s, a, nTime);
    case AttemptOp(a, nTime) =>
    case ConnectedOp(a, nTime) =>
    case GetAddrOp(rnd, nNow) =>
      GetAddrFromSame(s, 0, GetAddrLimit(|s.vRandom|), [], rnd, nNow);
      SameButPosTimes(s.mapInfo, GetAddr(s, rnd, nNow).0.mapInfo);
  }

  lemma SameButPosTimes(m: map<int, AddrInfo>, m': map<int, AddrInfo>)
    requires SameButPos(m, m') && TimesOk(m)
    ensures TimesOk(m')
  {
  }

  /** Every run with positive times from the empty manager passes everything Check_ asks of the state. */
  lemma {:induction false} RunTimes(h: Env, nKey: nat, ops: seq<Op>)
    requires forall k :: 0 <= k < |ops| ==> TimesGiven(ops[k])
    ensures TimesOk(Run(h, nKey, ops).mapInfo)
  {
    if ops != [] {
      RunTimes(h, nKey, ops[..|ops| - 1]);
      StepTimes(h, Run(h, nKey, ops[..|ops| - 1]), ops[|ops| - 1]);
    }
  }

  /** In every run the random order lists each entry once, and the two counters add up to its length. */
  lemma CountersAddUp(h: Env, s: State)
    requires Inv(h, s)
    ensures |s.vRandom| == s.nTried + s.nNew
  {
    var ids := NewIds(s.mapInfo) + TriedIds(s.mapInfo);
    assert |ids| == s.nNew + s.nTried by { assert NewIds(s.mapInfo) !! TriedIds(s.mapInfo); }
    forall n | n in ids ensures n in s.vRandom {
      assert s.vRandom[s.mapInfo[n].nRandomPos] == n;
    }
    forall j, k | 0 <= j < k < |s.vRandom| ensures s.vRandom[j] != s.vRandom[k] {
      assert s.mapInfo[s.vRandom[j]].nRandomPos == j && s.mapInfo[s.vRandom[k]].nRandomPos == k;
    }
    ListingSize(s.vRandom, ids);
  }

  lemma {:induction false} ListingSize<T>(v: seq<T>, ids: set<T>)
    requires forall k :: 0 <= k < |v| ==> v[k] in ids
    requires forall n :: n in ids ==> n in v
    requires forall j, k :: 0 <= j < k < |v| ==> v[j] != v[k]
    ensures |v| == |ids|
  {
    if v == [] {
      assert ids == {};
    } else {
      var w := v[..|v| - 1];
      var last := v[|v| - 1];
      assert v == w + [last];
      ListingSize(w, ids - {last});
    }
  }

  // ---------------------------------------------------------------- Select_

  datatype Choice = NoTable | FromTried | FromNew

  /** The table Select_ draws from; `coin` stands for GetRandInt(2). */
  function SelectTable(s: State, newOnly: bool, coin: nat): Choice {
    if |s.vRandom| == 0 then NoTable
    else if newOnly && s.nNew == 0 then NoTable
    else if !newOnly && s.nTried > 0 && (s.nNew == 0 || coin % 2 == 0) then FromTried
    else FromNew
  }

  /** Select_ only draws from a table with an occupied slot, whose every id is known, and
      declines only when there is nothing to choose from. */
  lemma SelectFindsEntry(h: Env, s: State, newOnly: bool, coin: nat)
    requires Inv(h, s)
    ensures match SelectTable(s, newOnly, coin)
            case FromTried => s.tried != map[] && s.tried.Values <= s.mapInfo.Keys
            case FromNew => s.news != map[] && s.news.Values <= s.mapInfo.Keys
            case NoTable => s.news == map[] && (newOnly || s.tried == map[])
    ensures SelectTable(s, newOnly, coin) == FromTried ==> !newOnly
    ensures !newOnly && s.news != map[] && s.tried != map[] ==>
              SelectTable(s, newOnly, coin) == if coin % 2 == 0 then FromTried else FromNew
  {
    CountersAddUp(h, s);
    var newIds, triedIds := NewIds(s.mapInfo), TriedIds(s.mapInfo);
    if newIds != {} {
      var n := Member(newIds);
      assert s.mapInfo[n].nRefCount == |Occ(s.news, n)| != 0;
      var x :| x in Occ(s.news, n);
      assert x in s.news;
    }
    if triedIds != {} {
      var n := Member(triedIds);
      assert TriedSlot(h, s.nKey, s.mapInfo[n].addr.service) in s.tried;
    }
    forall x | x in s.news ensures s.news[x] in NewIds(s.mapInfo) {
      assert NewSlotOk(h, s.nKey, s.mapInfo, s.news, x);
    }
    forall x | x in s.tried ensures s.tried[x] in TriedIds(s.mapInfo) {
    }
  }

  // ---------------------------------------------------------------- design goals

  /** However many addresses one group holds, they spread over at most 8 tried buckets. */
  lemma TriedBucketsPerGroup(h: Env, key: nat, group: nat, services: set<Service>)
    requires forall a :: a in services ==> h.group(a.ip) == group
    ensures |set a | a in services :: GetTriedBucket(h, key, a)| <= TRIED_BUCKETS_PER_GROUP
  {
    var f := i => h.hash(key, TriedGroup(group, if i < 0 then 0 else i)) % TRIED_BUCKET_COUNT;
    ImageSize(TRIED_BUCKETS_PER_GROUP, f);
    var image := set i | 0 <= i < TRIED_BUCKETS_PER_GROUP :: f(i);
    var used := set a | a in services :: GetTriedBucket(h, key, a);
    forall b | b in used ensures b in image {
      var a :| a in services && b == GetTriedBucket(h, key, a);
      var i := h.hash(key, TriedAddress(a)) % TRIED_BUCKETS_PER_GROUP;
      assert 0 <= i < TRIED_BUCKETS_PER_GROUP && f(i) == b;
    }
    SubsetSize(used, image);
  }

  /** However many addresses one source group reports, they spread over at most 64 new buckets. */
  lemma NewBucketsPerSourceGroup(h: Env, key: nat, source: nat, services: set<Service>)
    ensures |set a | a in services :: GetNewBucket(h, key, a, source)| <= NEW_BUCKETS_PER_SOURCE_GROUP
  {
    var f := i => h.hash(key, NewSource(h.group(source), if i < 0 then 0 else i)) % NEW_BUCKET_COUNT;
    ImageSize(NEW_BUCKETS_PER_SOURCE_GROUP, f);
    var image := set i | 0 <= i < NEW_BUCKETS_PER_SOURCE_GROUP :: f(i);
    var used := set a | a in services :: GetNewBucket(h, key, a, source);
    forall b | b in used ensures b in image {
      var a :| a in services && b == GetNewBucket(h, key, a, source);
      var i := h.hash(key, NewGroups(h.group(a.ip), h.group(source))) % NEW_BUCKETS_PER_SOURCE_GROUP;
      assert 0 <= i < NEW_BUCKETS_PER_SOURCE_GROUP && f(i) == b;
    }
    SubsetSize(used, image);
  }

  lemma {:induction false} ImageSize(n: nat, f: int -> int)
    ensures |set i | 0 <= i < n :: f(i)| <= n
  {
    var image := set i | 0 <= i < n :: f(i);
    if n > 0 {
      ImageSize(n - 1, f);
      var before := set i | 0 <= i < n - 1 :: f(i);
      assert image == before + {f(n - 1)};
    } else {
      assert image == {};
    }
  }
}
