/** The address manager as a value: entries, two hashed bucket tables, and the
    operations on them.  The class in AddrMan.dfy is proved against this module.

    A bucket table is a map holding only the occupied slots.  Hashes, address
    groups and routability are functions left uninterpreted in `Env`. */
module AddrManSpec {

  const TRIED_BUCKET_COUNT := 256
  const NEW_BUCKET_COUNT := 1024
  const BUCKET_SIZE := 64
  const TRIED_BUCKETS_PER_GROUP := 8
  const NEW_BUCKETS_PER_SOURCE_GROUP := 64
  const NEW_BUCKETS_PER_ADDRESS := 8
  const HORIZON_DAYS := 30
  const RETRIES := 3
  const MAX_FAILURES := 10
  const MIN_FAIL_DAYS := 7
  const GETADDR_MAX_PCT := 23
  const GETADDR_MAX := 2500

  const UINT32 := 0x1_0000_0000

  datatype Service = Service(ip: nat, port: nat)

  datatype Address = Address(service: Service, services: bv64, nTime: int)

  datatype AddrInfo = AddrInfo(
    addr: Address, source: nat, nLastSuccess: int, nLastTry: int,
    nAttempts: int, nRefCount: int, fInTried: bool, nRandomPos: int)
  {
    function Ip(): nat { addr.service.ip }
  }

  /** What the bucket hashes are taken of, one constructor per hash in the source. */
  datatype Preimage =
    | TriedAddress(service: Service)
    | TriedGroup(group: nat, salt: nat)
    | NewGroups(group: nat, sourceGroup: nat)
    | NewSource(sourceGroup: nat, salt: nat)
    | Position(fNew: bool, bucket: int, service: Service)

  datatype Env = Env(hash: (nat, Preimage) -> nat, group: nat -> nat, routable: nat -> bool)

  datatype Slot = Slot(bucket: nat, pos: nat)
  type Table = map<Slot, int>

  datatype State = State(
    nKey: nat, nIdCount: int, mapInfo: map<int, AddrInfo>, mapAddr: map<nat, int>,
    vRandom: seq<int>, nTried: int, tried: Table, nNew: int, news: Table)

  // ---------------------------------------------------------------- placement

  function GetTriedBucket(h: Env, key: nat, a: Service): (b: nat)
    ensures b < TRIED_BUCKET_COUNT
  {
    var hash1 := h.hash(key, TriedAddress(a));
    h.hash(key, TriedGroup(h.group(a.ip), hash1 % TRIED_BUCKETS_PER_GROUP)) % TRIED_BUCKET_COUNT
  }

  function GetNewBucket(h: Env, key: nat, a: Service, source: nat): (b: nat)
    ensures b < NEW_BUCKET_COUNT
  {
    var hash1 := h.hash(key, NewGroups(h.group(a.ip), h.group(source)));
    h.hash(key, NewSource(h.group(source), hash1 % NEW_BUCKETS_PER_SOURCE_GROUP)) % NEW_BUCKET_COUNT
  }

  function GetBucketPosition(h: Env, key: nat, fNew: bool, bucket: int, a: Service): (p: nat)
    ensures p < BUCKET_SIZE
  {
    h.hash(key, Position(fNew, bucket, a)) % BUCKET_SIZE
  }

  function TriedSlot(h: Env, key: nat, a: Service): Slot {
    var b := GetTriedBucket(h, key, a);
    Slot(b, GetBucketPosition(h, key, false, b, a))
  }

  function NewSlotIn(h: Env, key: nat, bucket: nat, a: Service): Slot {
    Slot(bucket, GetBucketPosition(h, key, true, bucket, a))
  }

  function NewSlot(h: Env, key: nat, a: Service, source: nat): Slot {
    NewSlotIn(h, key, GetNewBucket(h, key, a, source), a)
  }

  function IsTerrible(i: AddrInfo, nNow: int): bool {
    if i.nLastTry != 0 && i.nLastTry >= nNow - 60 then false
    else if i.addr.nTime > nNow + 10 * 60 then true
    else if i.addr.nTime == 0 || nNow - i.addr.nTime > HORIZON_DAYS * 24 * 60 * 60 then true
    else if i.nLastSuccess == 0 && i.nAttempts >= RETRIES then true
    else nNow - i.nLastSuccess > MIN_FAIL_DAYS * 24 * 60 * 60 && i.nAttempts >= MAX_FAILURES
  }

  // ---------------------------------------------------------------- invariant

  /** The slots of a table that hold id `n`. */
  function Occ(t: Table, n: int): set<Slot> { set s | s in t && t[s] == n }

  function NewIds(m: map<int, AddrInfo>): set<int> { set n | n in m && !m[n].fInTried }
  function TriedIds(m: map<int, AddrInfo>): set<int> { set n | n in m && m[n].fInTried }

  ghost predicate RandomOk(m: map<int, AddrInfo>, v: seq<int>) {
    && (forall n :: n in m ==> 0 <= m[n].nRandomPos < |v| && v[m[n].nRandomPos] == n)
    && (forall k :: 0 <= k < |v| ==> v[k] in m && m[v[k]].nRandomPos == k)
  }

  ghost predicate AddrOk(m: map<int, AddrInfo>, a: map<nat, int>) {
    && (forall n :: n in m ==> m[n].Ip() in a && a[m[n].Ip()] == n)
    && (forall ip :: ip in a ==> a[ip] in m && m[a[ip]].Ip() == ip)
  }

  ghost predicate IdsOk(m: map<int, AddrInfo>, nIdCount: int) {
    0 <= nIdCount && forall n :: n in m ==> 0 <= n < nIdCount
  }

  ghost predicate TriedOk(h: Env, key: nat, m: map<int, AddrInfo>, t: Table) {
    && (forall s :: s in t ==> t[s] in m && m[t[s]].fInTried && s == TriedSlot(h, key, m[t[s]].addr.service))
    && (forall n :: n in m && m[n].fInTried ==>
          var s := TriedSlot(h, key, m[n].addr.service); s in t && t[s] == n)
  }

  predicate NewSlotOk(h: Env, key: nat, m: map<int, AddrInfo>, t: Table, s: Slot)
    requires s in t
  {
    && t[s] in m
    && !m[t[s]].fInTried
    && s.bucket < NEW_BUCKET_COUNT
    && s == NewSlotIn(h, key, s.bucket, m[t[s]].addr.service)
  }

  /** `limbo` holds the ids that an operation has created or taken out of every
      slot and not yet placed or deleted; it is empty between operations. */
  ghost predicate NewOk(h: Env, key: nat, m: map<int, AddrInfo>, t: Table, limbo: set<int>) {
    && limbo <= NewIds(m)
    && (forall s :: s in t ==> NewSlotOk(h, key, m, t, s))
    && (forall n :: n in m ==> m[n].nRefCount == |Occ(t, n)| <= NEW_BUCKETS_PER_ADDRESS)
    && (forall n :: n in m && !m[n].fInTried ==> (m[n].nRefCount == 0 <==> n in limbo))
  }

  /** The part of the condition that looks neither at the new table nor at the addresses. */
  ghost predicate CoreOk(h: Env, s: State) {
    && RandomOk(s.mapInfo, s.vRandom)
    && IdsOk(s.mapInfo, s.nIdCount)
    && TriedOk(h, s.nKey, s.mapInfo, s.tried)
    && s.nTried == |TriedIds(s.mapInfo)|
  }

  /** All of it but the addresses, with `d` of the limbo ids not counted in nNew. */
  ghost predicate CoreG(h: Env, s: State, limbo: set<int>, d: int) {
    && CoreOk(h, s)
    && NewOk(h, s.nKey, s.mapInfo, s.news, limbo)
    && s.nNew == |NewIds(s.mapInfo)| - d
  }

  /** The whole consistency condition. */
  ghost predicate InvG(h: Env, s: State, limbo: set<int>, d: int) {
    CoreG(h, s, limbo, d) && AddrOk(s.mapInfo, s.mapAddr)
  }

  ghost predicate Inv(h: Env, s: State) { InvG(h, s, {}, 0) }

  // ---------------------------------------------------------------- operations

  function SetInfo(s: State, n: int, i: AddrInfo): State { s.(mapInfo := s.mapInfo[n := i]) }

  function FreshInfo(addr: Address, source: nat, pos: int): AddrInfo {
    AddrInfo(addr, source, 0, 0, 0, 0, false, pos)
  }

  function Create(s: State, addr: Address, source: nat): State {
    var n := s.nIdCount;
    s.(nIdCount := n + 1,
       mapInfo := s.mapInfo[n := FreshInfo(addr, source, |s.vRandom|)],
       mapAddr := s.mapAddr[addr.service.ip := n],
       vRandom := s.vRandom + [n])
  }

  function SwapRandom(s: State, i: nat, j: nat): State
    requires i < |s.vRandom| && j < |s.vRandom|
    requires s.vRandom[i] in s.mapInfo && s.vRandom[j] in s.mapInfo
  {
    var n1, n2 := s.vRandom[i], s.vRandom[j];
    var m := s.mapInfo[n1 := s.mapInfo[n1].(nRandomPos := j)];
    s.(mapInfo := m[n2 := m[n2].(nRandomPos := i)], vRandom := s.vRandom[i := n2][j := n1])
  }

  function Delete(s: State, n: int): State
    requires n in s.mapInfo && RandomOk(s.mapInfo, s.vRandom)
  {
    var t := SwapRandom(s, s.mapInfo[n].nRandomPos, |s.vRandom| - 1);
    t.(vRandom := t.vRandom[..|t.vRandom| - 1],
       mapAddr := t.mapAddr - {s.mapInfo[n].Ip()},
       mapInfo := t.mapInfo - {n},
       nNew := t.nNew - 1)
  }

  function ClearNew(s: State, slot: Slot): State
    requires slot in s.news ==> s.news[slot] in s.mapInfo
    requires RandomOk(s.mapInfo, s.vRandom)
  {
    if slot !in s.news then s
    else
      var n := s.news[slot];
      var i := s.mapInfo[n];
      var t := SetInfo(s, n, i.(nRefCount := i.nRefCount - 1)).(news := s.news - {slot});
      if i.nRefCount == 1 then Delete(t, n) else t
  }

  /** Take `n` out of every new bucket. */
  function EraseNew(s: State, n: int): State
    requires n in s.mapInfo
  {
    SetInfo(s, n, s.mapInfo[n].(nRefCount := 0)).(news := s.news - Occ(s.news, n))
  }

  /** Put a limbo id into an empty new slot. */
  function PlaceNew(s: State, n: int, slot: Slot): State
    requires n in s.mapInfo
  {
    SetInfo(s, n, s.mapInfo[n].(nRefCount := s.mapInfo[n].nRefCount + 1)).(news := s.news[slot := n])
  }

  function Untry(s: State, slot: Slot): State
    requires slot in s.tried && s.tried[slot] in s.mapInfo
  {
    var e := s.tried[slot];
    SetInfo(s, e, s.mapInfo[e].(fInTried := false)).(tried := s.tried - {slot}, nTried := s.nTried - 1)
  }

  function PlaceTried(s: State, n: int, slot: Slot): State
    requires n in s.mapInfo
  {
    SetInfo(s, n, s.mapInfo[n].(fInTried := true)).(tried := s.tried[slot := n], nTried := s.nTried + 1)
  }
}
