/** What the operations of the address manager do, told entry by entry and slot by slot. */
module AddrManMeaning {
  import opened AddrManSpec
  import opened AddrManProofs
  import opened AddrManRuns
  import opened Bits

  // ---------------------------------------------------------------- the facts about an entry

  /** An entry without what only says where it is kept: its references, its table and its position. */
  function Lasting(i: AddrInfo): AddrInfo { i.(nRefCount := 0, fInTried := false, nRandomPos := 0) }

  /** A time less a penalty, as the entry's 32-bit time field takes it. */
  function Penalised(nTime: int, nTimePenalty: int): int {
    if nTime <= nTimePenalty then 0 else (nTime - nTimePenalty) % 0x1_0000_0000
  }

  /** Whether an announcement is newer than the time `known` by more than the update interval, which is an
      hour for an address online within the last day, and otherwise a day. */
  predicate Newer(known: int, nTime: int, nTimePenalty: int, nNow: int) {
    && nTime != 0
    && (known == 0 || known + (if nNow < nTime + 86400 then 3600 else 86400) + nTimePenalty < nTime)
  }

  /** The known address `a` after an announcement of it: the services of both, and the newer time. */
  function Announced(a: Address, addr: Address, nTimePenalty: int, nNow: int): Address {
    Address(a.service, a.services | addr.services,
            if Newer(a.nTime, addr.nTime, nTimePenalty, nNow) then Penalised(addr.nTime, nTimePenalty) else a.nTime)
  }

  /** What an operation tells about the entry `i`. */
  function Told(h: Env, i: AddrInfo, op: Op): AddrInfo {
    match op
    case AddOp(addr, _, nTimePenalty, nNow, _) =>
      if !h.routable(addr.service.ip) || addr.service.ip != i.addr.service.ip then i
      else i.(addr := Announced(i.addr, addr, nTimePenalty, nNow))
    case GoodOp(a, nTime) =>
      if a != i.addr.service then i else i.(nAttempts := 0, nLastTry := nTime, nLastSuccess := nTime)
    case AttemptOp(a, nTime) =>
      if a != i.addr.service then i else i.(nAttempts := 1 + i.nAttempts, nLastTry := nTime)
    case ConnectedOp(a, nTime) =>
      if a == i.addr.service && nTime > i.addr.nTime + 1200
      then i.(addr := i.addr.(nTime := nTime % 0x1_0000_0000)) else i
    case GetAddrOp(_, _) => i
  }

  /** What the first announcement of an address tells. */
  function Born(addr: Address, source: nat, nTimePenalty: int): AddrInfo {
    AddrInfo(Address(addr.service, addr.services, Penalised(addr.nTime, nTimePenalty)), source, 0, 0, 0, 0, false, 0)
  }

  /** No entry of `m'` but was there before, and none is told more than its place. */
  ghost predicate OnlyMoves(m: map<int, AddrInfo>, m': map<int, AddrInfo>) {
    forall k :: k in m' ==> k in m && Lasting(m'[k]) == Lasting(m[k])
  }

  lemma OnlyMovesTrans(m: map<int, AddrInfo>, m': map<int, AddrInfo>, m'': map<int, AddrInfo>)
    requires OnlyMoves(m, m') && OnlyMoves(m', m'')
    ensures OnlyMoves(m, m'')
  {
  }

  lemma SetMoves(s: State, n: int, i: AddrInfo)
    requires n in s.mapInfo && Lasting(i) == Lasting(s.mapInfo[n])
    ensures OnlyMoves(s.mapInfo, SetInfo(s, n, i).mapInfo)
  {
  }

  lemma DeleteMoves(s: State, n: int)
    requires n in s.mapInfo && RandomOk(s.mapInfo, s.vRandom)
    ensures OnlyMoves(s.mapInfo, Delete(s, n).mapInfo)
  {
    var m := Delete(s, n).mapInfo;
    forall k | k in m ensures k in s.mapInfo && Lasting(m[k]) == Lasting(s.mapInfo[k]) {
      DeleteGone(s, n);
      assert k in m.Keys;
      DeleteFrame(s, n, k);
    }
  }

  lemma ClearNewMoves(s: State, u: Slot)
    requires RandomOk(s.mapInfo, s.vRandom) && (u in s.news ==> s.news[u] in s.mapInfo)
    ensures OnlyMoves(s.mapInfo, ClearNew(s, u).mapInfo)
  {
    if u in s.news {
      var n := s.news[u];
      var i := s.mapInfo[n].(nRefCount := s.mapInfo[n].nRefCount - 1);
      var t := SetInfo(s, n, i).(news := s.news - {u});
      SetMoves(s, n, i);
      if s.mapInfo[n].nRefCount == 1 {
        RandomOkSet(s.mapInfo, s.vRandom, n, i);
        DeleteMoves(t, n);
        OnlyMovesTrans(s.mapInfo, t.mapInfo, Delete(t, n).mapInfo);
      }
    }
  }

  lemma LinkMoves(h: Env, s: State, n: int, source: nat, nNow: int)
    requires LinkReady(h, s, n, source)
    ensures OnlyMoves(s.mapInfo, Link(h, s, n, source, nNow).mapInfo)
  {
    var i := s.mapInfo[n];
    var u := NewSlot(h, s.nKey, i.addr.service, source);
    if u in s.news && s.news[u] == n {
    } else if u !in s.news || Displaces(s.mapInfo[s.news[u]], i.nRefCount, nNow) {
      var c := ClearNew(s, u);
      ClearNewMoves(s, u);
      SetMoves(c, n, c.mapInfo[n].(nRefCount := c.mapInfo[n].nRefCount + 1));
      OnlyMovesTrans(s.mapInfo, c.mapInfo, PlaceNew(c, n, u).mapInfo);
    } else if i.nRefCount == 0 {
      DeleteMoves(s, n);
    }
  }

  lemma EvictStepMoves(h: Env, s: State, slot: Slot)
    requires Evictable(h, s, slot)
    ensures OnlyMoves(s.mapInfo, EvictStep(h, s, slot).mapInfo)
  {
    var e := s.tried[slot];
    var t, u := Untry(s, slot), HomeSlot(h, s, e);
    var c := ClearNew(t, u);
    SetMoves(s, e, s.mapInfo[e].(fInTried := false));
    ClearNewMoves(t, u);
    SetMoves(c, e, c.mapInfo[e].(nRefCount := c.mapInfo[e].nRefCount + 1));
    OnlyMovesTrans(s.mapInfo, t.mapInfo, c.mapInfo);
    OnlyMovesTrans(s.mapInfo, c.mapInfo, EvictStep(h, s, slot).mapInfo);
  }

  lemma MakeTriedMoves(h: Env, s: State, n: int)
    requires Promotable(h, s, n)
    ensures OnlyMoves(s.mapInfo, MakeTried(h, s, n).mapInfo) && n in MakeTried(h, s, n).mapInfo
  {
    var slot := TriedSlot(h, s.nKey, s.mapInfo[n].addr.service);
    var t := Erased(s, n);
    var c := RoomMade(h, t, slot);
    SetMoves(s, n, s.mapInfo[n].(nRefCount := 0));
    if slot in t.tried { EvictStepMoves(h, t, slot); }
    SetMoves(c, n, c.mapInfo[n].(fInTried := true));
    OnlyMovesTrans(s.mapInfo, t.mapInfo, c.mapInfo);
    OnlyMovesTrans(s.mapInfo, c.mapInfo, MakeTried(h, s, n).mapInfo);
  }

  lemma SameButPosMoves(m: map<int, AddrInfo>, m': map<int, AddrInfo>)
    requires SameButPos(m, m')
    ensures OnlyMoves(m, m')
  {
    forall k | k in m' ensures k in m && Lasting(m'[k]) == Lasting(m[k]) {
      assert k in m'.Keys;
      SameEntry(m, m', k);
    }
  }

  // ---------------------------------------------------------------- one step

  lemma RefreshTime(i: AddrInfo, addr: Address, nTimePenalty: int, nNow: int)
    ensures Refresh(i, addr, nTimePenalty, nNow).addr.nTime
              == if Newer(i.addr.nTime, addr.nTime, nTimePenalty, nNow) then Penalised(addr.nTime, nTimePenalty)
                 else i.addr.nTime
  {
  }

  lemma RefreshTells(i: AddrInfo, addr: Address, nTimePenalty: int, nNow: int)
    ensures Refresh(i, addr, nTimePenalty, nNow) == i.(addr := Announced(i.addr, addr, nTimePenalty, nNow))
  {
    RefreshTime(i, addr, nTimePenalty, nNow);
    var r := Refresh(i, addr, nTimePenalty, nNow);
    assert r.addr == Announced(i.addr, addr, nTimePenalty, nNow);
    assert r == i.(addr := r.addr);
  }

  lemma CreateTells(s: State, addr: Address, source: nat, nTimePenalty: int, k: int)
    requires IdsOk(s.mapInfo, s.nIdCount)
    ensures var m := CreateNew(s, addr, source, nTimePenalty).mapInfo;
            && (k in m <==> k in s.mapInfo || k == s.nIdCount) && s.nIdCount !in s.mapInfo
            && (k in s.mapInfo ==> m[k] == s.mapInfo[k])
            && Lasting(m[s.nIdCount]) == Born(addr, source, nTimePenalty)
  {
  }

  /** In `m`, entry `k` is told what `op` tells it, if it is there; and if it was not there before, it
      was made for a routable address that was not known. */
  ghost predicate ToldOne(h: Env, s: State, op: Op, m: map<int, AddrInfo>, k: int) {
    k in m ==>
      if k in s.mapInfo then Lasting(m[k]) == Lasting(Told(h, s.mapInfo[k], op))
      else && k == s.nIdCount && op.AddOp? && h.routable(op.addr.service.ip) && op.addr.service.ip !in s.mapAddr
           && Lasting(m[k]) == Born(op.addr, op.source, op.nTimePenalty)
  }

  lemma PreparedTells(h: Env, s: State, addr: Address, source: nat, nTimePenalty: int, nNow: int, rnd: nat, k: int)
    requires AddrOk(s.mapInfo, s.mapAddr) && IdsOk(s.mapInfo, s.nIdCount) && h.routable(addr.service.ip)
    ensures ToldOne(h, s, AddOp(addr, source, nTimePenalty, nNow, rnd),
                       Prepared(s, addr, source, nTimePenalty, nNow).0.mapInfo, k)
  {
    var ip := addr.service.ip;
    if k in s.mapInfo {
      assert s.mapInfo[k].Ip() in s.mapAddr && s.mapAddr[s.mapInfo[k].Ip()] == k;
    }
    if ip in s.mapAddr {
      RefreshTells(s.mapInfo[s.mapAddr[ip]], addr, nTimePenalty, nNow);
    } else {
      CreateTells(s, addr, source, nTimePenalty, k);
    }
  }

  lemma AddTells(h: Env, s: State, addr: Address, source: nat, nTimePenalty: int, nNow: int, rnd: nat, k: int)
    requires Inv(h, s)
    ensures AddReady(h, s, addr, source, nTimePenalty, nNow, rnd)
    ensures ToldOne(h, s, AddOp(addr, source, nTimePenalty, nNow, rnd),
                       Add(h, s, addr, source, nTimePenalty, nNow, rnd).mapInfo, k)
  {
    AddKeeps(h, s, addr, source, nTimePenalty, nNow, rnd);
    if h.routable(addr.service.ip) {
      var (t, n) := Prepared(s, addr, source, nTimePenalty, nNow);
      PreparedTells(h, s, addr, source, nTimePenalty, nNow, rnd, k);
      if addr.service.ip !in s.mapAddr || !Stays(t.mapInfo[n], addr, rnd) {
        LinkMoves(h, t, n, source, nNow);
      }
    }
  }

  lemma GoodTells(h: Env, s: State, a: Service, nTime: int, k: int)
    requires AddrOk(s.mapInfo, s.mapAddr) && GoodReady(h, s, a, nTime)
    ensures ToldOne(h, s, GoodOp(a, nTime), Good(h, s, a, nTime).mapInfo, k)
  {
    OnlyThatService(s, a, k);
    if Knows(s, a) {
      var n := s.mapAddr[a.ip];
      var t := SetInfo(s, n, Marked(s.mapInfo[n], nTime));
      if !s.mapInfo[n].fInTried { MakeTriedMoves(h, t, n); }
    }
  }

  lemma AttemptTells(h: Env, s: State, a: Service, nTime: int, k: int)
    requires AddrOk(s.mapInfo, s.mapAddr)
    ensures ToldOne(h, s, AttemptOp(a, nTime), Attempt(s, a, nTime).mapInfo, k)
  {
    OnlyThatService(s, a, k);
  }

  lemma ConnectedTells(h: Env, s: State, a: Service, nTime: int, k: int)
    requires AddrOk(s.mapInfo, s.mapAddr)
    ensures ToldOne(h, s, ConnectedOp(a, nTime), Connected(s, a, nTime).mapInfo, k)
  {
    OnlyThatService(s, a, k);
  }

  lemma GetAddrTells(h: Env, s: State, rnd: nat -> nat, nNow: int, k: int)
    requires RandomOk(s.mapInfo, s.vRandom)
    ensures ToldOne(h, s, GetAddrOp(rnd, nNow), GetAddr(s, rnd, nNow).0.mapInfo, k)
  {
    GetAddrFromSame(s, 0, GetAddrLimit(|s.vRandom|), [], rnd, nNow);
    SameButPosMoves(s.mapInfo, GetAddr(s, rnd, nNow).0.mapInfo);
  }

  /** The entry with service `a` is the one that looking up its address finds. */
  lemma OnlyThatService(s: State, a: Service, k: int)
    requires AddrOk(s.mapInfo, s.mapAddr)
    ensures k in s.mapInfo ==> (s.mapInfo[k].addr.service == a <==> Knows(s, a) && s.mapAddr[a.ip] == k)
  {
    if k in s.mapInfo {
      assert s.mapInfo[k].Ip() in s.mapAddr && s.mapAddr[s.mapInfo[k].Ip()] == k;
    }
  }

  /** Every step tells an entry that stays what `Told` says, and makes one only for a new routable address. */
  lemma StepTells(h: Env, s: State, op: Op, k: int)
    requires Inv(h, s)
    ensures ToldOne(h, s, op, Step(h, s, op).mapInfo, k)
  {
    match op
    case AddOp(addr, source, nTimePenalty, nNow, rnd) => AddTells(h, s, addr, source, nTimePenalty, nNow, rnd, k);
    case GoodOp(a, nTime) => GoodKeeps(h, s, a, nTime); GoodTells(h, s, a, nTime, k);
    case AttemptOp(a, nTime) => AttemptTells(h, s, a, nTime, k);
    case ConnectedOp(a, nTime) => ConnectedTells(h, s, a, nTime, k);
    case GetAddrOp(rnd, nNow) => GetAddrTells(h, s, rnd, nNow, k);
  }

  // ---------------------------------------------------------------- worth

  /** An entry is worth its slot when it was tried within the last minute; or when it was seen within the last 30
      days, and not more than ten minutes from now, and its attempts fail fewer than three times, if it never
      answered, and fewer than ten times, if it has not for a week. */
  predicate WorthKeeping(i: AddrInfo, nNow: int) {
    || (i.nLastTry != 0 && nNow - 60 <= i.nLastTry)
    || (&& i.addr.nTime != 0 && nNow - 2592000 <= i.addr.nTime <= nNow + 600
        && (i.nLastSuccess == 0 ==> i.nAttempts < 3)
        && (i.nLastSuccess < nNow - 604800 ==> i.nAttempts < 10))
  }

  lemma TerribleIs(i: AddrInfo, nNow: int)
    ensures IsTerrible(i, nNow) <==> !WorthKeeping(i, nNow)
  {
  }

  // ---------------------------------------------------------------- slots

  /** The entries left once slot `u` of table `t` goes to another: its holder is lost with its only reference. */
  function Left(m: map<int, AddrInfo>, t: Table, u: Slot): set<int> {
    set k | k in m && !(u in t && t[u] == k && m[k].nRefCount == 1)
  }

  lemma LeftIs(m: map<int, AddrInfo>, t: Table, u: Slot)
    ensures m.Keys - Forgotten(m, t, u) == Left(m, t, u)
  {
  }

  /** An announcement of an address that is not routable changes nothing.  One of an unknown address makes an
      entry, with the next id, exactly when its slot is free or held by an entry that is not worth keeping or
      has another slot; that holder loses the slot. */
  lemma AddUnknown(h: Env, s: State, addr: Address, source: nat, nTimePenalty: int, nNow: int, rnd: nat)
    requires Inv(h, s) && addr.service.ip !in s.mapAddr
    ensures AddReady(h, s, addr, source, nTimePenalty, nNow, rnd)
    ensures var r := Add(h, s, addr, source, nTimePenalty, nNow, rnd);
            if !h.routable(addr.service.ip) then r == s else
            var n, u := s.nIdCount, NewSlot(h, s.nKey, addr.service, source);
            && r.nIdCount == n + 1 && r.tried == s.tried
            && (u in s.news ==> s.news[u] in s.mapInfo)
            && if u !in s.news || !WorthKeeping(s.mapInfo[s.news[u]], nNow) || s.mapInfo[s.news[u]].nRefCount > 1
               then r.news == s.news[u := n] && r.mapInfo.Keys == Left(s.mapInfo, s.news, u) + {n}
               else r.news == s.news && r.mapInfo.Keys == s.mapInfo.Keys
  {
    AddKeeps(h, s, addr, source, nTimePenalty, nNow, rnd);
    if h.routable(addr.service.ip) {
      var t, n := CreateNew(s, addr, source, nTimePenalty), s.nIdCount;
      HolderDroppable(h, s, NewSlot(h, s.nKey, addr.service, source), {}, 0);
      CreateNewLinkable(h, s, addr, source, nTimePenalty);
      CreateTells(s, addr, source, nTimePenalty, n);
      LinkUnknown(h, s, t, n, addr.service, source, nNow);
    }
  }

  lemma LinkUnknown(h: Env, s: State, t: State, n: int, a: Service, source: nat, nNow: int)
    requires Linkable(h, t, n) && n !in s.mapInfo && t.mapInfo == s.mapInfo[n := t.mapInfo[n]]
    requires t.news == s.news && t.tried == s.tried && t.nKey == s.nKey
    requires t.mapInfo[n].addr.service == a && t.mapInfo[n].nRefCount == 0
    requires var u := NewSlot(h, s.nKey, a, source); u in s.news ==> s.news[u] in s.mapInfo
    ensures LinkReady(h, t, n, source)
    ensures var r, u := Link(h, t, n, source, nNow), NewSlot(h, s.nKey, a, source);
            && r.nIdCount == t.nIdCount && r.tried == s.tried
            && if u !in s.news || !WorthKeeping(s.mapInfo[s.news[u]], nNow) || s.mapInfo[s.news[u]].nRefCount > 1
               then r.news == s.news[u := n] && r.mapInfo.Keys == Left(s.mapInfo, s.news, u) + {n}
               else r.news == s.news && r.mapInfo.Keys == s.mapInfo.Keys
  {
    var u := NewSlot(h, s.nKey, a, source);
    if u in s.news { TerribleIs(s.mapInfo[s.news[u]], nNow); }
    LinkMeaning(h, t, n, source, nNow);
    LinkIds(h, t, n, source, nNow);
    LeftWith(s.mapInfo, t.mapInfo, s.news, u, n);
  }

  lemma LeftWith(m: map<int, AddrInfo>, m': map<int, AddrInfo>, t: Table, u: Slot, n: int)
    requires n !in m && n in m' && m' == m[n := m'[n]] && (u in t ==> t[u] in m)
    ensures m'.Keys - Forgotten(m', t, u) == Left(m, t, u) + {n} && m'.Keys - {n} == m.Keys
  {
  }

  lemma LinkIds(h: Env, s: State, n: int, source: nat, nNow: int)
    requires LinkReady(h, s, n, source)
    ensures Link(h, s, n, source, nNow).nIdCount == s.nIdCount
  {
    ClearNewIds(s, NewSlot(h, s.nKey, s.mapInfo[n].addr.service, source));
  }

  lemma ClearNewIds(s: State, u: Slot)
    requires RandomOk(s.mapInfo, s.vRandom) && (u in s.news ==> s.news[u] in s.mapInfo)
    ensures ClearNew(s, u).nIdCount == s.nIdCount
  {
  }

  /** Whether the entry `i`, told of a time by an announcement, is to get one more slot: not without news, nor in
      the tried table, nor with eight of them; and one draw in two for each that it has. */
  predicate WantsMore(i: AddrInfo, nTime: int, rnd: nat)
    requires i.nRefCount >= 0
  {
    && nTime != 0 && (i.addr.nTime == 0 || i.addr.nTime < nTime)
    && !i.fInTried && i.nRefCount != 8 && rnd % Pow2(i.nRefCount) == 0
  }

  lemma StaysUnless(i: AddrInfo, addr: Address, rnd: nat)
    requires i.nRefCount >= 0
    ensures Stays(i, addr, rnd) <==> !WantsMore(i, addr.nTime, rnd)
  {
  }

  /** A linked entry that had a slot before keeps all but its references and its position. */
  lemma LinkEntry(h: Env, s: State, n: int, source: nat, nNow: int)
    requires Linkable(h, s, n) && s.mapInfo[n].nRefCount > 0
    ensures LinkReady(h, s, n, source)
    ensures var r := Link(h, s, n, source, nNow);
            && n in r.mapInfo && r.nIdCount == s.nIdCount
            && r.mapInfo[n] == s.mapInfo[n].(nRefCount := r.mapInfo[n].nRefCount, nRandomPos := r.mapInfo[n].nRandomPos)
  {
    var u := NewSlot(h, s.nKey, s.mapInfo[n].addr.service, source);
    LinkKeeps(h, s, n, source, nNow);
    LinkIds(h, s, n, source, nNow);
    if u !in s.news || s.news[u] != n {
      LinkSteps(h, s, n, u);
    }
  }

  /** The refreshed state, and the slot its entry would like. */
  lemma LinkSlots(h: Env, s: State, n: int, source: nat, nNow: int, j: AddrInfo, u: Slot)
    requires n in s.mapInfo && Linkable(h, SetInfo(s, n, j), n) && j.nRefCount == s.mapInfo[n].nRefCount > 0
    requires u == NewSlot(h, s.nKey, j.addr.service, source)
    ensures LinkReady(h, SetInfo(s, n, j), n, source) && (u in s.news ==> s.news[u] in s.mapInfo)
    ensures var r := Link(h, SetInfo(s, n, j), n, source, nNow);
            && r.tried == s.tried
            && if u in s.news ==> s.news[u] != n && !WorthKeeping(s.mapInfo[s.news[u]], nNow)
               then r.news == s.news[u := n] && r.mapInfo.Keys == Left(s.mapInfo, s.news, u)
               else r.news == s.news && r.mapInfo.Keys == s.mapInfo.Keys
  {
    var t := SetInfo(s, n, j);
    LinkMeaning(h, t, n, source, nNow);
    if u in s.news { TerribleIs(t.mapInfo[t.news[u]], nNow); }
    LeftIs(t.mapInfo, t.news, u);
    assert t.mapInfo.Keys == s.mapInfo.Keys;
  }

  lemma AddKnownIs(h: Env, s: State, addr: Address, source: nat, nTimePenalty: int, nNow: int, rnd: nat,
                   n: int, j: AddrInfo)
    requires Inv(h, s) && addr.service.ip in s.mapAddr && h.routable(addr.service.ip)
    requires n == s.mapAddr[addr.service.ip]
    ensures n in s.mapInfo && s.mapInfo[n].Ip() == addr.service.ip && s.mapInfo[n].nRefCount >= 0
    ensures AddReady(h, s, addr, source, nTimePenalty, nNow, rnd)
    ensures j == Refresh(s.mapInfo[n], addr, nTimePenalty, nNow) ==>
              var t := SetInfo(s, n, j);
              && (WantsMore(j, addr.nTime, rnd) ==>
                    Linkable(h, t, n) && j.nRefCount > 0 && LinkReady(h, t, n, source))
              && Add(h, s, addr, source, nTimePenalty, nNow, rnd)
                   == if WantsMore(j, addr.nTime, rnd) then Link(h, t, n, source, nNow) else t
  {
    AddKeeps(h, s, addr, source, nTimePenalty, nNow, rnd);
    PreparedLinkable(h, s, addr, source, nTimePenalty, nNow, rnd);
    if j == Refresh(s.mapInfo[n], addr, nTimePenalty, nNow) { StaysUnless(j, addr, rnd); }
  }

  /** An announcement of a known routable address refreshes its entry `i` to `j`, and gives it one more slot
      exactly when it wants one and finds that slot free or held by another entry not worth keeping. */
  lemma AddKnown(h: Env, s: State, addr: Address, source: nat, nTimePenalty: int, nNow: int, rnd: nat)
    returns (n: int, i: AddrInfo, j: AddrInfo, u: Slot, r: State)
    requires Inv(h, s) && addr.service.ip in s.mapAddr && h.routable(addr.service.ip)
    ensures n == s.mapAddr[addr.service.ip] && n in s.mapInfo && i == s.mapInfo[n] && i.nRefCount >= 0
    ensures j == i.(addr := Announced(i.addr, addr, nTimePenalty, nNow))
    ensures u == NewSlot(h, s.nKey, i.addr.service, source) && (u in s.news ==> s.news[u] in s.mapInfo)
    ensures AddReady(h, s, addr, source, nTimePenalty, nNow, rnd)
    ensures r == Add(h, s, addr, source, nTimePenalty, nNow, rnd)
    ensures n in r.mapInfo && r.tried == s.tried && r.nIdCount == s.nIdCount
    ensures r.mapInfo[n] == j.(nRefCount := r.mapInfo[n].nRefCount, nRandomPos := r.mapInfo[n].nRandomPos)
    ensures if WantsMore(j, addr.nTime, rnd)
               && (u in s.news ==> s.news[u] != n && !WorthKeeping(s.mapInfo[s.news[u]], nNow))
            then r.news == s.news[u := n] && r.mapInfo.Keys == Left(s.mapInfo, s.news, u)
            else r.news == s.news && r.mapInfo.Keys == s.mapInfo.Keys
  {
    n := s.mapAddr[addr.service.ip];
    AddKnownIs(h, s, addr, source, nTimePenalty, nNow, rnd, n, Refresh(s.mapInfo[n], addr, nTimePenalty, nNow));
    i := s.mapInfo[n];
    j := Refresh(i, addr, nTimePenalty, nNow);
    u := NewSlot(h, s.nKey, i.addr.service, source);
    r := Add(h, s, addr, source, nTimePenalty, nNow, rnd);
    HolderDroppable(h, s, u, {}, 0);
    AddKnownEnds(h, s, addr, source, nNow, rnd, n, j, u, r);
    RefreshTells(i, addr, nTimePenalty, nNow);
  }

  lemma AddKnownEnds(h: Env, s: State, addr: Address, source: nat, nNow: int, rnd: nat, n: int, j: AddrInfo, u: Slot,
                     r: State)
    requires n in s.mapInfo && j.nRefCount == s.mapInfo[n].nRefCount >= 0 && (u in s.news ==> s.news[u] in s.mapInfo)
    requires u == NewSlot(h, s.nKey, j.addr.service, source)
    requires WantsMore(j, addr.nTime, rnd) ==>
               Linkable(h, SetInfo(s, n, j), n) && j.nRefCount > 0 && LinkReady(h, SetInfo(s, n, j), n, source)
    requires r == if WantsMore(j, addr.nTime, rnd) then Link(h, SetInfo(s, n, j), n, source, nNow)
                  else SetInfo(s, n, j)
    ensures n in r.mapInfo && r.tried == s.tried && r.nIdCount == s.nIdCount
    ensures r.mapInfo[n] == j.(nRefCount := r.mapInfo[n].nRefCount, nRandomPos := r.mapInfo[n].nRandomPos)
    ensures if WantsMore(j, addr.nTime, rnd)
               && (u in s.news ==> s.news[u] != n && !WorthKeeping(s.mapInfo[s.news[u]], nNow))
            then r.news == s.news[u := n] && r.mapInfo.Keys == Left(s.mapInfo, s.news, u)
            else r.news == s.news && r.mapInfo.Keys == s.mapInfo.Keys
  {
    if WantsMore(j, addr.nTime, rnd) {
      LinkSlots(h, s, n, source, nNow, j, u);
      LinkEntry(h, SetInfo(s, n, j), n, source, nNow);
    } else {
      assert r.mapInfo.Keys == s.mapInfo.Keys;
    }
  }

  function Without(t: Table, n: int): Table { map x | x in t && t[x] != n :: t[x] }

  lemma WithoutIs(t: Table, n: int)
    ensures t - Occ(t, n) == Without(t, n)
  {
  }

  /** Good_ on a service that is not known changes nothing, nor does it move an entry that is tried.  A new
      entry leaves every new slot for its tried slot; the holder of that goes back to its own slot in the new
      table, where the holder loses one reference, and is lost with its only one. */
  lemma GoodMeaning(h: Env, s: State, a: Service, nTime: int)
    returns (r: State, n: int)
    requires Inv(h, s)
    ensures GoodReady(h, s, a, nTime) && r == Good(h, s, a, nTime)
    ensures a.ip in s.mapAddr ==> n == s.mapAddr[a.ip] && n in s.mapInfo
    ensures if a.ip !in s.mapAddr || s.mapInfo[n].addr.service != a then r == s
            else if s.mapInfo[n].fInTried
            then r.tried == s.tried && r.news == s.news && r.mapInfo.Keys == s.mapInfo.Keys && r.nIdCount == s.nIdCount
            else MovesToTried(h, s, r, n)
  {
    GoodKeeps(h, s, a, nTime);
    r := Good(h, s, a, nTime);
    n := if a.ip in s.mapAddr then s.mapAddr[a.ip] else 0;
    if Knows(s, a) && !s.mapInfo[n].fInTried {
      var i := Marked(s.mapInfo[n], nTime);
      SetInfoKeeps(h, s, n, i, {}, 0);
      MakeTriedMeaning(h, SetInfo(s, n, i), n);
      SameMove(h, s, r, n, i);
    }
  }

  /** `n` moves from all its new slots to its tried slot, and the holder of that to its own new slot. */
  ghost predicate MovesToTried(h: Env, s: State, r: State, n: int)
    requires n in s.mapInfo
  {
    var slot := TriedSlot(h, s.nKey, s.mapInfo[n].addr.service);
    var cleared := Without(s.news, n);
    && r.tried == s.tried[slot := n] && r.nIdCount == s.nIdCount
    && if slot !in s.tried then r.news == cleared && r.mapInfo.Keys == s.mapInfo.Keys
       else
         var e := s.tried[slot];
         && e in s.mapInfo
         && var u := NewSlot(h, s.nKey, s.mapInfo[e].addr.service, s.mapInfo[e].source);
         && r.news == cleared[u := e] && r.mapInfo.Keys == Left(s.mapInfo, cleared, u)
  }

  lemma SameMove(h: Env, s: State, r: State, n: int, i: AddrInfo)
    requires n in s.mapInfo && SameRole(s.mapInfo[n], i) && i.source == s.mapInfo[n].source
    requires MovesToTried(h, SetInfo(s, n, i), r, n)
    ensures MovesToTried(h, s, r, n)
  {
    var slot := TriedSlot(h, s.nKey, s.mapInfo[n].addr.service);
    if slot in s.tried {
      var e := s.tried[slot];
      var u := NewSlot(h, s.nKey, s.mapInfo[e].addr.service, s.mapInfo[e].source);
      assert Left(SetInfo(s, n, i).mapInfo, Without(s.news, n), u) == Left(s.mapInfo, Without(s.news, n), u);
    } else {
      assert SetInfo(s, n, i).mapInfo.Keys == s.mapInfo.Keys;
    }
  }

  lemma MakeTriedMeaning(h: Env, s: State, n: int)
    requires Inv(h, s) && n in s.mapInfo && !s.mapInfo[n].fInTried
    ensures Promotable(h, s, n) && MovesToTried(h, s, MakeTried(h, s, n), n)
  {
    var slot := TriedSlot(h, s.nKey, s.mapInfo[n].addr.service);
    WithoutIs(s.news, n);
    MakeTriedOk(h, s, n);
    MakeTriedIds(h, s, n);
    if slot in s.tried {
      var e := s.tried[slot];
      TriedHolder(h, s, slot);
      MakeTriedTaken(h, s, n, e);
      MakeTriedForgets(h, s, n, e);
      LeftIs(s.mapInfo, Without(s.news, n), HomeSlot(h, s, e));
    } else {
      MakeTriedFree(h, s, n);
    }
  }

  lemma TriedHolder(h: Env, s: State, slot: Slot)
    requires Inv(h, s) && slot in s.tried
    ensures s.tried[slot] in s.mapInfo
  {
  }

  lemma MakeTriedIds(h: Env, s: State, n: int)
    requires Promotable(h, s, n)
    ensures MakeTried(h, s, n).nIdCount == s.nIdCount
  {
  }

  /** The other operations move nothing between the tables. */
  lemma OthersMoveNothing(h: Env, s: State, op: Op)
    requires Inv(h, s) && !op.AddOp? && !op.GoodOp?
    ensures var r := Step(h, s, op);
            && r.tried == s.tried && r.news == s.news && r.mapInfo.Keys == s.mapInfo.Keys
            && r.nIdCount == s.nIdCount && (!op.GetAddrOp? ==> r.vRandom == s.vRandom)
  {
    match op
    case AttemptOp(a, nTime) =>
    case ConnectedOp(a, nTime) =>
    case GetAddrOp(rnd, nNow) => GetAddrFromSame(s, 0, GetAddrLimit(|s.vRandom|), [], rnd, nNow);
  }

  // ---------------------------------------------------------------- what can be drawn

  lemma TurnWith(s: State, n: nat, limit: nat, out: seq<Address>, rnd: nat -> nat, nNow: int, pos: nat)
    returns (t: State, out': seq<Address>)
    requires RandomOk(s.mapInfo, s.vRandom) && n < |s.vRandom| && |out| < limit && pos == Draw(rnd, n, |s.vRandom|)
    ensures t == SwapRandom(s, n, pos) && RandomOk(t.mapInfo, t.vRandom) && |t.vRandom| == |s.vRandom|
    ensures t.vRandom[n] in t.mapInfo && out' == Collect(t, n, out, nNow)
    ensures GetAddrFrom(s, n, limit, out, rnd, nNow) == GetAddrFrom(t, n + 1, limit, out', rnd, nNow)
  {
    GetAddrUnfold(s, n, limit, out, rnd, nNow, pos);
    t := SwapRandom(s, n, pos);
    out' := Collect(t, n, out, nNow);
  }

  /** The draws from position `n` on decide. */
  lemma {:induction false} LaterDraws(s: State, n: nat, limit: nat, out: seq<Address>, rnd: nat -> nat,
                                      rnd': nat -> nat, nNow: int)
    requires RandomOk(s.mapInfo, s.vRandom) && n <= |s.vRandom| && forall k: nat :: k >= n ==> rnd(k) == rnd'(k)
    ensures GetAddrFrom(s, n, limit, out, rnd, nNow) == GetAddrFrom(s, n, limit, out, rnd', nNow)
    decreases |s.vRandom| - n
  {
    if n < |s.vRandom| && |out| < limit {
      var t, out' := TurnWith(s, n, limit, out, rnd, nNow, Draw(rnd, n, |s.vRandom|));
      var t', out'' := TurnWith(s, n, limit, out, rnd', nNow, Draw(rnd, n, |s.vRandom|));
      LaterDraws(t, n + 1, limit, out', rnd, rnd', nNow);
    }
  }

  /** What has been collected stays. */
  lemma {:induction false} CollectedStays(s: State, n: nat, limit: nat, out: seq<Address>, rnd: nat -> nat, nNow: int)
    requires RandomOk(s.mapInfo, s.vRandom) && n <= |s.vRandom|
    ensures out <= GetAddrFrom(s, n, limit, out, rnd, nNow).1
    decreases |s.vRandom| - n
  {
    if n < |s.vRandom| && |out| < limit {
      var pos := Draw(rnd, n, |s.vRandom|);
      GetAddrUnfold(s, n, limit, out, rnd, nNow, pos);
      var t := SwapRandom(s, n, pos);
      CollectedStays(t, n + 1, limit, Collect(t, n, out, nNow), rnd, nNow);
    }
  }

  function Addresses(m: map<int, AddrInfo>, ids: seq<int>): (r: seq<Address>)
    requires forall k :: 0 <= k < |ids| ==> ids[k] in m
    ensures |r| == |ids| && forall k :: 0 <= k < |ids| ==> r[k] == m[ids[k]].addr
  {
    seq(|ids|, k requires 0 <= k < |ids| => m[ids[k]].addr)
  }

  /** Distinct entries worth passing on, none of which is at a position before `n`. */
  ghost predicate Wanted(m: map<int, AddrInfo>, ids: seq<int>, n: int, nNow: int) {
    && (forall k :: 0 <= k < |ids| ==> ids[k] in m && WorthKeeping(m[ids[k]], nNow) && n <= m[ids[k]].nRandomPos)
    && (forall j, k :: 0 <= j < k < |ids| ==> ids[j] != ids[k])
  }

  lemma WantedNext(s: State, ids: seq<int>, n: nat, nNow: int) returns (t: State)
    requires RandomOk(s.mapInfo, s.vRandom) && n < |s.vRandom| && ids != [] && Wanted(s.mapInfo, ids, n, nNow)
    ensures n <= s.mapInfo[ids[0]].nRandomPos < |s.vRandom|
    ensures t == SwapRandom(s, n, s.mapInfo[ids[0]].nRandomPos) && RandomOk(t.mapInfo, t.vRandom)
    ensures |t.vRandom| == |s.vRandom| && t.vRandom[n] == ids[0] && Wanted(t.mapInfo, ids[1..], n + 1, nNow)
    ensures ids[0] in t.mapInfo && t.mapInfo[ids[0]].addr == s.mapInfo[ids[0]].addr
    ensures !IsTerrible(t.mapInfo[ids[0]], nNow)
    ensures Addresses(t.mapInfo, ids[1..]) == Addresses(s.mapInfo, ids)[1..]
  {
    var first := ids[0];
    assert first in s.mapInfo && 0 <= s.mapInfo[first].nRandomPos < |s.vRandom|;
    var pos := s.mapInfo[first].nRandomPos;
    assert s.vRandom[pos] == first && s.vRandom[n] in s.mapInfo;
    t := SwapRandom(s, n, pos);
    SwapRandomOk(s, n, pos);
    TerribleIs(t.mapInfo[ids[0]], nNow);
    forall k | 0 <= k < |ids[1..]|
      ensures ids[1..][k] in t.mapInfo && WorthKeeping(t.mapInfo[ids[1..][k]], nNow)
      ensures t.mapInfo[ids[1..][k]].addr == s.mapInfo[ids[k + 1]].addr
      ensures n + 1 <= t.mapInfo[ids[1..][k]].nRandomPos
    {
      assert ids[1..][k] == ids[k + 1] != ids[0];
    }
  }

  /** The draws `later`, but with `pos` drawn for position `n` of `size`. */
  function Drawing(n: nat, pos: nat, later: nat -> nat): nat -> nat
    requires n <= pos
  {
    k => if k == n then pos - n else later(k)
  }

  lemma DrawingIs(s: State, n: nat, limit: nat, out: seq<Address>, pos: nat, later: nat -> nat, nNow: int)
    requires RandomOk(s.mapInfo, s.vRandom) && n <= pos < |s.vRandom| && |out| < limit
    ensures var t := SwapRandom(s, n, pos);
            && RandomOk(t.mapInfo, t.vRandom) && n < |t.vRandom| && t.vRandom[n] in t.mapInfo
            && GetAddrFrom(s, n, limit, out, Drawing(n, pos, later), nNow)
                 == GetAddrFrom(t, n + 1, limit, Collect(t, n, out, nNow), later, nNow)
  {
    var rnd := Drawing(n, pos, later);
    assert Draw(rnd, n, |s.vRandom|) == pos;
    GetAddrUnfold(s, n, limit, out, rnd, nNow, pos);
    var t := SwapRandom(s, n, pos);
    LaterDraws(t, n + 1, limit, Collect(t, n, out, nNow), rnd, later, nNow);
  }

  lemma {:induction false} ListSplit<T>(out: seq<T>, all: seq<T>, r: seq<T>)
    requires all != [] && out + [all[0]] + all[1..] <= r
    ensures out + all <= r
  {
    assert out + [all[0]] + all[1..] == out + all;
  }

  /** Some draws from position `n` on collect `ids` next. */
  lemma {:induction false} DrawsFor(s: State, n: nat, limit: nat, out: seq<Address>, ids: seq<int>, nNow: int)
    returns (rnd: nat -> nat)
    requires RandomOk(s.mapInfo, s.vRandom) && n <= |s.vRandom| && |out| + |ids| <= limit
    requires Wanted(s.mapInfo, ids, n, nNow)
    ensures out + Addresses(s.mapInfo, ids) <= GetAddrFrom(s, n, limit, out, rnd, nNow).1
    decreases |ids|
  {
    if ids == [] {
      rnd := k => 0;
      CollectedStays(s, n, limit, out, rnd, nNow);
      assert out + Addresses(s.mapInfo, ids) == out;
    } else {
      var first := ids[0];
      assert first in s.mapInfo && 0 <= s.mapInfo[first].nRandomPos < |s.vRandom|;
      var t := WantedNext(s, ids, n, nNow);
      var later := DrawsFor(t, n + 1, limit, out + [s.mapInfo[first].addr], ids[1..], nNow);
      rnd := Drawing(n, s.mapInfo[first].nRandomPos, later);
      DrawsNext(s, n, limit, out, first, t, later, nNow);
      ListSplit(out, Addresses(s.mapInfo, ids), GetAddrFrom(s, n, limit, out, rnd, nNow).1);
    }
  }

  lemma DrawsNext(s: State, n: nat, limit: nat, out: seq<Address>, first: int, t: State, later: nat -> nat, nNow: int)
    requires RandomOk(s.mapInfo, s.vRandom) && |out| < limit && first in s.mapInfo
    requires n <= s.mapInfo[first].nRandomPos < |s.vRandom| && t == SwapRandom(s, n, s.mapInfo[first].nRandomPos)
    requires n < |t.vRandom| && t.vRandom[n] == first && first in t.mapInfo && RandomOk(t.mapInfo, t.vRandom)
    requires !IsTerrible(t.mapInfo[first], nNow) && t.mapInfo[first].addr == s.mapInfo[first].addr
    ensures GetAddrFrom(s, n, limit, out, Drawing(n, s.mapInfo[first].nRandomPos, later), nNow)
              == GetAddrFrom(t, n + 1, limit, out + [s.mapInfo[first].addr], later, nNow)
  {
    DrawingIs(s, n, limit, out, s.mapInfo[first].nRandomPos, later, nNow);
  }

  /** Whatever distinct entries worth passing on are asked for, in whatever order, as many as the limit allows:
      some draws make GetAddr_ answer with them first. */
  lemma AnyAnswer(s: State, ids: seq<int>, nNow: int) returns (rnd: nat -> nat)
    requires RandomOk(s.mapInfo, s.vRandom)
    requires forall k :: 0 <= k < |ids| ==> ids[k] in s.mapInfo && WorthKeeping(s.mapInfo[ids[k]], nNow)
    requires forall j, k :: 0 <= j < k < |ids| ==> ids[j] != ids[k]
    requires 100 * |ids| <= 23 * |s.vRandom| && |ids| <= 2500
    ensures Addresses(s.mapInfo, ids) <= GetAddr(s, rnd, nNow).1
  {
    rnd := DrawsFor(s, 0, GetAddrLimit(|s.vRandom|), [], ids, nNow);
    assert [] + Addresses(s.mapInfo, ids) == Addresses(s.mapInfo, ids);
  }

  /** Whatever the hashes are to be, there is such a hash function: the tried bucket is one of eight for the
      address group, chosen by the service; the new bucket one of 64 for the source group, chosen by both
      groups; and the position any of 64 for the table, the bucket and the service.  Nothing else decides. */
  lemma AnyPlacement(group: nat -> nat, routable: nat -> bool, triedSalt: (nat, Service) -> nat,
                     triedBucket: (nat, nat, nat) -> nat, newSalt: (nat, nat, nat) -> nat,
                     newBucket: (nat, nat, nat) -> nat, position: (nat, bool, int, Service) -> nat) returns (h: Env)
    ensures h.group == group && h.routable == routable
    ensures forall key, a :: TriedSlot(h, key, a)
              == (var b := triedBucket(key, group(a.ip), triedSalt(key, a) % 8) % 256;
                  Slot(b, position(key, false, b, a) % 64))
    ensures forall key, a, source :: NewSlot(h, key, a, source)
              == (var b := newBucket(key, group(source), newSalt(key, group(a.ip), group(source)) % 64) % 1024;
                  Slot(b, position(key, true, b, a) % 64))
    ensures forall key, b: nat, a :: NewSlotIn(h, key, b, a) == Slot(b, position(key, true, b, a) % 64)
  {
    h := Env((key: nat, p: Preimage) =>
               match p
               case TriedAddress(a) => triedSalt(key, a)
               case TriedGroup(g, salt) => triedBucket(key, g, salt)
               case NewGroups(g, sourceGroup) => newSalt(key, g, sourceGroup)
               case NewSource(sourceGroup, salt) => newBucket(key, sourceGroup, salt)
               case Position(fNew, bucket, a) => position(key, fNew, bucket, a),
             group, routable);
  }

  // ---------------------------------------------------------------- runs

  /** What the operations `ops[from..to]`, one after the other, make of the facts `i`. */
  function History(h: Env, i: AddrInfo, ops: seq<Op>, from: nat, to: nat): AddrInfo
    requires from <= to <= |ops|
  {
    if from == to then i else Told(h, History(h, i, ops, from, to - 1), ops[to - 1])
  }

  lemma ToldLasting(h: Env, i: AddrInfo, j: AddrInfo, op: Op)
    requires Lasting(i) == Lasting(j)
    ensures Lasting(Told(h, i, op)) == Lasting(Told(h, j, op))
  {
    ToldOfLasting(h, i, op);
    ToldOfLasting(h, j, op);
  }

  lemma ToldOfLasting(h: Env, i: AddrInfo, op: Op)
    ensures Lasting(Told(h, i, op)) == Lasting(Told(h, Lasting(i), op))
  {
    if op.AddOp? {
      AnnouncedLasting(i, Announced(i.addr, op.addr, op.nTimePenalty, op.nNow));
    }
  }

  lemma AnnouncedLasting(i: AddrInfo, a: Address)
    ensures Lasting(i.(addr := a)) == Lasting(Lasting(i).(addr := a))
  {
  }

  /** The operation `j` of a run announced a routable address that was not known, and made entry `k`. */
  ghost predicate Makes(h: Env, nKey: nat, ops: seq<Op>, k: int, j: nat)
    requires j < |ops|
  {
    && ops[j].AddOp? && h.routable(ops[j].addr.service.ip)
    && k !in Run(h, nKey, ops[..j]).mapInfo && ops[j].addr.service.ip !in Run(h, nKey, ops[..j]).mapAddr
  }

  /** The entry `i` holds what the operations up to `n`, since `j` made it, have told. */
  ghost predicate HoldsHistory(h: Env, ops: seq<Op>, j: nat, n: nat, i: AddrInfo)
    requires j < n <= |ops| && ops[j].AddOp?
  {
    Lasting(i) == Lasting(History(h, Born(ops[j].addr, ops[j].source, ops[j].nTimePenalty), ops, j + 1, n))
  }

  lemma HistoryNext(h: Env, ops: seq<Op>, j: nat, n: nat, i: AddrInfo, i': AddrInfo)
    requires j < n < |ops| && ops[j].AddOp? && HoldsHistory(h, ops, j, n, i)
    requires Lasting(i') == Lasting(Told(h, i, ops[n]))
    ensures HoldsHistory(h, ops, j, n + 1, i')
  {
    ToldLasting(h, i, History(h, Born(ops[j].addr, ops[j].source, ops[j].nTimePenalty), ops, j + 1, n), ops[n]);
  }

  /** The step from state `n` on tells entry `k` what `Told` says. */
  ghost predicate TellsAt(h: Env, ops: seq<Op>, states: seq<State>, n: nat, k: int)
    requires n < |ops| && |states| == |ops| + 1
  {
    ToldOne(h, states[n], ops[n], states[n + 1].mapInfo, k)
  }

  lemma {:induction false} TraceTells(h: Env, ops: seq<Op>, states: seq<State>, n: nat, k: int) returns (j: nat)
    requires |states| == |ops| + 1 && states[0].mapInfo == map[]
    requires forall i :: 0 <= i < |ops| ==> TellsAt(h, ops, states, i, k)
    requires n <= |ops| && k in states[n].mapInfo
    ensures j < n && ops[j].AddOp? && h.routable(ops[j].addr.service.ip)
    ensures k !in states[j].mapInfo && ops[j].addr.service.ip !in states[j].mapAddr
    ensures HoldsHistory(h, ops, j, n, states[n].mapInfo[k])
  {
    assert n > 0;
    assert TellsAt(h, ops, states, n - 1, k);
    if k in states[n - 1].mapInfo {
      j := TraceTells(h, ops, states, n - 1, k);
      HistoryNext(h, ops, j, n - 1, states[n - 1].mapInfo[k], states[n].mapInfo[k]);
    } else {
      j := n - 1;
    }
  }

  ghost function States(h: Env, nKey: nat, ops: seq<Op>): (r: seq<State>)
    ensures |r| == |ops| + 1 && forall n :: 0 <= n <= |ops| ==> r[n] == Run(h, nKey, ops[..n])
  {
    seq(|ops| + 1, n requires 0 <= n <= |ops| => Run(h, nKey, ops[..n]))
  }

  lemma {:induction false} RunStepTells(h: Env, nKey: nat, ops: seq<Op>, n: nat, k: int)
    requires n < |ops|
    ensures TellsAt(h, ops, States(h, nKey, ops), n, k)
  {
    assert ops[..n + 1][..n] == ops[..n] && ops[..n + 1][n] == ops[n];
    StepTells(h, Run(h, nKey, ops[..n]), ops[n], k);
  }

  /** At every point of a run, each entry was made by the announcement of a routable address that was not
      known, and holds exactly what the operations on that address have told since. */
  lemma {:induction false} RunTells(h: Env, nKey: nat, ops: seq<Op>, n: nat, k: int) returns (j: nat)
    requires n <= |ops| && k in Run(h, nKey, ops[..n]).mapInfo
    ensures j < n && Makes(h, nKey, ops, k, j)
    ensures HoldsHistory(h, ops, j, n, Run(h, nKey, ops[..n]).mapInfo[k])
  {
    var states := States(h, nKey, ops);
    forall i | 0 <= i < |ops| ensures TellsAt(h, ops, states, i, k) {
      RunStepTells(h, nKey, ops, i, k);
    }
    j := TraceTells(h, ops, states, n, k);
  }
}
