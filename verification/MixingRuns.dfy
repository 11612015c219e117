/** What a mixing session promises and what it does not: the denomination of its entries, and the
    signatures of the transaction it commits. */
module MixingRuns {
  import opened Bits
  import opened CoinsCodec
  import opened Mixing
  import opened MixingSigs

  // ---- the denomination of a session ----

  /** A message that hands in an entry or brings signatures. */
  datatype Step = Vin(entry: Entry, accept: bool) | Sign(txins: seq<TxIn>, accept: bool)

  predicate Unsigned(e: Entry) { forall k :: 0 <= k < |e.ins| ==> !e.ins[k].fHasSig }

  /** An entry that an empty pool would take, or fail on, by itself. */
  predicate Heard(o: Oracle, denoms: seq<int>, s: Step) {
    s.Vin? && Denominations(denoms, s.entry.outs) != 0 && o.entryOk(s.entry)
  }

  /** The first entry of a session that is heard; past the end, if there is none. */
  function FirstHeard(o: Oracle, denoms: seq<int>, steps: seq<Step>): (i: nat)
    ensures i <= |steps| && (i < |steps| ==> Heard(o, denoms, steps[i]))
    ensures forall j :: 0 <= j < i ==> !Heard(o, denoms, steps[j])
  {
    if steps == [] || Heard(o, denoms, steps[0]) then 0 else 1 + FirstHeard(o, denoms, steps[1..])
  }

  /** Every entry in the pool has the session's denomination. */
  predicate InDenomination(pool: CDarksendPool)
    reads pool
  {
    forall i :: 0 <= i < |pool.vecEntries| ==> Denominations(pool.denoms, pool.vecEntries[i].outs) == pool.nSessionDenom
  }

  /** After n messages the entries in the pool, if any, follow the one heard first. */
  ghost predicate Following(pool: CDarksendPool, steps: seq<Step>, n: nat, denom: int)
    reads pool
  {
    var f := FirstHeard(pool.o, pool.denoms, steps);
    && (pool.vecEntries != [] ==> f < n && f < |steps| && pool.vecEntries[0].outs == steps[f].entry.outs)
    && (pool.vecEntries == [] ==> f >= n || !pool.IsSessionReady())
    && (pool.IsSessionReady() ==> pool.nSessionDenom == denom)
  }

  method Take(pool: CDarksendPool, steps: seq<Step>, i: nat, ghost denom: int)
    requires pool.Valid() && i < |steps| && (steps[i].Vin? ==> Unsigned(steps[i].entry))
    requires Following(pool, steps, i, denom)
    modifies pool
    ensures pool.Valid() && Following(pool, steps, i + 1, denom)
  {
    ghost var f, before := FirstHeard(pool.o, pool.denoms, steps), pool.vecEntries;
    match steps[i]
    case Vin(entry, accept) =>
      var ok := pool.DsVin(entry, accept);
      assert f > i ==> !Heard(pool.o, pool.denoms, steps[i]);
      assert f == i ==> Heard(pool.o, pool.denoms, steps[i]);
    case Sign(txins, accept) =>
      assert f != i;
      ghost var s := AddSigs(pool.o, pool.Signatures(), txins).0;
      var ok := pool.DsSign(txins, accept);
      if before != [] {
        assert ShapeOf(s.entries[0]) == Outline(s.entries)[0] == Outline(before)[0] == ShapeOf(before[0]);
      }
  }

  /** Whatever entries and signatures a session is handed: those it has in the end are of its
      denomination exactly when the first entry heard was. */
  method FirstEntryDecides(pool: CDarksendPool, steps: seq<Step>)
    requires pool.Valid() && pool.vecEntries == []
    requires forall i :: 0 <= i < |steps| && steps[i].Vin? ==> Unsigned(steps[i].entry)
    modifies pool
    ensures pool.Valid()
    ensures var f := FirstHeard(pool.o, pool.denoms, steps);
            pool.vecEntries != [] ==>
              && f < |steps| && pool.nSessionDenom == old(pool.nSessionDenom)
              && (InDenomination(pool) <==> Denominations(pool.denoms, steps[f].entry.outs) == pool.nSessionDenom)
  {
    ghost var denom := pool.nSessionDenom;
    for i := 0 to |steps|
      invariant pool.Valid() && Following(pool, steps, i, denom)
    {
      Take(pool, steps, i, denom);
    }
  }

  /** A node whose own checks are met by every entry that spends no outpoint twice. */
  ghost predicate Permissive(o: Oracle) {
    OracleOk(o) && (forall c :: o.collateralOk(c)) && forall e :: DistinctIns(e) ==> o.entryOk(e)
  }

  /** A pool of two users, announced for the first of the denominations, that takes entries. */
  method OpenPool(o: Oracle, denoms: seq<int>) returns (pool: CDarksendPool)
    requires Permissive(o) && denoms != []
    ensures fresh(pool) && pool.o == o && pool.denoms == denoms && pool.max == 2 && pool.Valid()
    ensures pool.nState == AcceptingEntries && pool.nSessionDenom == 1
    ensures pool.vecEntries == [] && pool.committed == [] && pool.against == map[]
  {
    pool := new CDarksendPool(o, denoms, 2);
    assert pool.IsAcceptableDenomAndCollateral(1, 0) by { assert 1 / Pow2(0) % 2 == 1 && 2 * Pow2(|denoms| - 1) >= 2; }
    var ok := pool.DsAccept(1, 0, true, false, 0);
    ok := pool.DsAccept(1, 0, true, false, 0);
    pool.CheckForCompleteQueue();
  }

  /** An entry of one coin of 1 that spends outpoint n. */
  function OneCoin(n: nat): Entry { Entry([DSIn(TxIn(n, 0, 0, 0), false)], [Out(1, n)], 0) }

  lemma {:induction false} CoinMask(denoms: seq<int>, n: nat)
    requires denoms == [1] || denoms == [10, 1]
    ensures Denominations(denoms, OneCoin(n).outs) == |denoms|
  {
    var outs := OneCoin(n).outs;
    assert outs[0].nValue == denoms[|denoms| - 1] == 1;
    assert HasValue(outs, 1) && !HasValue(outs, 10);
    var u := Used(denoms, outs);
    assert u[|denoms| - 1] && Pack(u[|denoms|..]) == 0;
    if |denoms| == 2 {
      assert u[1..][1..] == u[2..] && !u[0];
      assert Pack(u[1..]) == 1;
    }
  }

  /** A session announced for coins of 10 takes an entry of coins of 1. */
  method WrongDenomination(o: Oracle) returns (pool: CDarksendPool)
    requires Permissive(o)
    ensures pool.Valid() && pool.denoms == [10, 1] && pool.vecEntries == [OneCoin(1)]
    ensures pool.nSessionDenom == 1 && Denominations(pool.denoms, OneCoin(1).outs) == 2 && !InDenomination(pool)
  {
    pool := OpenPool(o, [10, 1]);
    CoinMask([10, 1], 1);
    var ok := pool.DsVin(OneCoin(1), true);
    assert Denominations(pool.denoms, pool.vecEntries[0].outs) == 2;
  }

  // ---- scripts ----

  predicate NoScripts(ins: seq<DSIn>) { forall k :: 0 <= k < |ins| ==> ins[k].txin.prevPubKey == 0 }

  predicate NoScriptsUsed(against: Record) { forall t :: t in against ==> against[t].script == 0 }

  /** The inputs in the pool have no scripts, and no signature was checked with one. */
  predicate Scriptless(s: Sigs) {
    (forall i :: 0 <= i < |s.entries| ==> NoScripts(s.entries[i].ins)) && NoScriptsUsed(s.against)
  }

  lemma {:induction false} EmptyScript(es: seq<Entry>, prevout: nat)
    requires forall i :: 0 <= i < |es| ==> NoScripts(es[i].ins)
    ensures PoolScript(es, prevout) == 0
  {
    var vin := JoinedIns(es);
    var k := LastAt(PlacesOf(vin), prevout);
    if k >= 0 { InputListed(es, vin[k]); }
  }

  lemma {:induction false} TakeScriptless(s: Sigs, t: TxIn)
    requires Scriptless(s) && t.prevPubKey == 0
    ensures Scriptless(TakeSig(s, t).0)
  {
    EmptyScript(s.entries, t.prevout);
    var i := Taker(s.entries, t);
    if i < |s.entries| { var k := SignedInput(s.entries[i], t); }
  }

  lemma {:induction false} SignScriptless(o: Oracle, s: Sigs, ts: seq<TxIn>)
    requires Scriptless(s) && forall i :: 0 <= i < |ts| ==> ts[i].prevPubKey == 0
    ensures Scriptless(AddSigs(o, s, ts).0)
  {
    if ts != [] {
      var n := |ts| - 1;
      SignScriptless(o, s, ts[..n]);
      TakeScriptless(AddSigs(o, s, ts[..n]).0, ts[n]);
    }
  }

  /** A message as it comes from the network, which does not carry the scripts of coins. */
  predicate Received(s: Step) {
    match s
    case Vin(entry, _) => Unsigned(entry) && NoScripts(entry.ins)
    case Sign(txins, _) => forall i :: 0 <= i < |txins| ==> txins[i].prevPubKey == 0
  }

  ghost predicate ScriptlessPool(pool: CDarksendPool)
    reads pool
  {
    Scriptless(pool.Signatures()) && forall m :: m in pool.committed ==> NoScriptsUsed(m.against)
  }

  lemma {:induction false} NothingChecked(o: Oracle, against: Record, t: TxIn)
    ensures !WasChecked(o, [], against, t)
  {
  }

  lemma {:induction false} NoRecord(pool: CDarksendPool)
    requires pool.Valid() && pool.vecEntries == []
    ensures pool.against == map[]
  {
    forall t
      ensures t !in pool.against
    {
      NothingChecked(pool.o, pool.against, t);
    }
  }

  method VinReceived(pool: CDarksendPool, entry: Entry, accept: bool)
    requires pool.Valid() && ScriptlessPool(pool) && Unsigned(entry) && NoScripts(entry.ins)
    modifies pool
    ensures pool.Valid() && ScriptlessPool(pool)
  {
    var ok := pool.DsVin(entry, accept);
    if pool.vecEntries == [] { NoRecord(pool); }
  }

  method SignReceived(pool: CDarksendPool, txins: seq<TxIn>, accept: bool)
    requires pool.Valid() && ScriptlessPool(pool) && forall i :: 0 <= i < |txins| ==> txins[i].prevPubKey == 0
    modifies pool
    ensures pool.Valid() && ScriptlessPool(pool)
  {
    ghost var s := AddSigs(pool.o, pool.Signatures(), txins).0;
    SignScriptless(pool.o, pool.Signatures(), txins);
    var ok := pool.DsSign(txins, accept);
    if pool.vecEntries == [] { NoRecord(pool); }
  }

  /** So no signature is ever checked with the script of its coin, unless that is empty. */
  method ScriptsStayEmpty(pool: CDarksendPool, steps: seq<Step>)
    requires pool.Valid() && ScriptlessPool(pool)
    requires forall i :: 0 <= i < |steps| ==> Received(steps[i])
    modifies pool
    ensures pool.Valid() && ScriptlessPool(pool)
  {
    for i := 0 to |steps|
      invariant pool.Valid() && ScriptlessPool(pool)
    {
      match steps[i]
      case Vin(entry, accept) => VinReceived(pool, entry, accept);
      case Sign(txins, accept) => SignReceived(pool, txins, accept);
    }
  }

  /** Some entry waits for a signature at that place. */
  predicate Waiting(es: seq<Entry>, t: TxIn) {
    exists i :: 0 <= i < |es| && WaitsAt(es[i], t)
  }

  predicate WaitsAt(e: Entry, t: TxIn) {
    var k := FirstAt(e.ins, PlaceOf(t));
    k < |e.ins| && !e.ins[k].fHasSig
  }

  lemma {:induction false} WaitingTakes(e: Entry, t: TxIn)
    ensures WaitsAt(e, t) <==> SignEntry(e, t) != e
    ensures WaitsAt(e, t) ==> SpendsOutpoint(e, t.prevout)
  {
    var k := FirstAt(e.ins, PlaceOf(t));
    if WaitsAt(e, t) {
      assert SignEntry(e, t).ins[k].fHasSig;
      assert e.ins[k].txin.prevout == t.prevout;
    }
  }

  /** In a pool of received messages a new signature is taken exactly when an entry waits for it and it
      passes under the empty script, if that does not read what is signed: for any outpoint, at any
      time, and in whatever order the entries joined. */
  lemma {:induction false} ReceivedAccepted(pool: CDarksendPool, t: TxIn, any: Message)
    requires ScriptlessPool(pool) && Unread(pool.o, 0, t.scriptSig)
    ensures Acceptable(pool.o, pool.vecEntries, t) <==>
              !HasSig(pool.vecEntries, t.scriptSig) && Spent(pool.vecEntries, t.prevout) &&
                pool.o.verify(any, 0, t.scriptSig)
    ensures AddSig(pool.o, pool.Signatures(), t).1 <==>
              !HasSig(pool.vecEntries, t.scriptSig) && Waiting(pool.vecEntries, t) && pool.o.verify(any, 0, t.scriptSig)
  {
    var es := pool.vecEntries;
    EmptyScript(es, t.prevout);
    AcceptedUnread(pool.o, es, t, any);
    forall i | 0 <= i < |es|
      ensures WaitsAt(es[i], t) <==> SignEntry(es[i], t) != es[i]
      ensures WaitsAt(es[i], t) ==> SpendsOutpoint(es[i], t.prevout)
    {
      WaitingTakes(es[i], t);
    }
  }

  // ---- two users ----

  /** A number that tells apart the messages of pools of one and of two coins. */
  function Number(m: Message): nat {
    1000 + 100 * |m.outs| + 10 * (if m.places == [] then 0 else m.places[0].0) + if m.index < 0 then 0 else m.index
  }

  /** The script of all coins. */
  const COIN := 1

  /** Under this script a signature must be the number of what it signs. */
  ghost predicate SignsNumber(o: Oracle, script: nat) { forall m, g :: o.verify(m, script, g) <==> g == Number(m) }

  /** Under this script any signature passes that is not empty. */
  ghost predicate PassesAll(o: Oracle, script: nat) { forall m, g :: o.verify(m, script, g) <==> g > 0 }

  /** Coins want the number of what is signed, and the empty script lets everything pass. */
  ghost predicate CoinsAsk(o: Oracle) {
    Permissive(o) && SignsNumber(o, COIN) && PassesAll(o, 0) && forall p :: o.scriptOf(p) == COIN
  }

  /** The input of an entry of one coin, with a signature. */
  function SignedIn(n: nat, sig: nat): TxIn { TxIn(n, 0, sig, 0) }

  function SignedCoin(n: nat, sig: nat): Entry { Entry([DSIn(SignedIn(n, sig), true)], [Out(1, n)], 0) }

  /** Entries of one input and one output each. */
  predicate Single(es: seq<Entry>) { forall i :: 0 <= i < |es| ==> |es[i].ins| == |es[i].outs| == 1 }

  lemma {:induction false} SingleJoined(es: seq<Entry>)
    requires Single(es)
    ensures |JoinedIns(es)| == |JoinedOuts(Outline(es))| == |es|
    ensures forall i :: 0 <= i < |es| ==> JoinedIns(es)[i] == es[i].ins[0].txin
  {
    if es != [] {
      var n := |es| - 1;
      assert Outline(es)[..n] == Outline(es[..n]);
      SingleJoined(es[..n]);
    }
  }

  lemma {:induction false} OneSig(o: Oracle, s: Sigs, t: TxIn)
    ensures AddSigs(o, s, [t]) == AddSig(o, s, t)
  {
    assert [t][..0] == [];
  }

  /** Entry i of such a pool has a coin that waits for this signature, which is new. */
  predicate Awaits(es: seq<Entry>, i: nat, n: nat, sig: nat)
    requires i < |es| && Single(es)
  {
    && es[i] == OneCoin(n) && sig > 0
    && forall j :: 0 <= j < |es| && j != i ==> es[j].ins[0].txin.prevout != n && es[j].ins[0].txin.scriptSig != sig
  }

  lemma {:induction false} AwaitedIndex(es: seq<Entry>, i: nat, n: nat, sig: nat)
    requires i < |es| && Single(es) && Awaits(es, i, n, sig)
    ensures PoolMessage(Outline(es), n).index == i && PoolScript(es, n) == 0
  {
    SingleJoined(es);
    JoinedSame(es);
    var ps, vin := JoinedPlaces(Outline(es)), JoinedIns(es);
    var k := LastAt(ps, n);
    assert ps[i] == PlaceOf(vin[i]);
    assert k >= i;
    assert ps[k] == PlaceOf(vin[k]);
  }

  lemma {:induction false} AwaitedPasses(o: Oracle, es: seq<Entry>, i: nat, n: nat, sig: nat)
    requires PassesAll(o, 0) && i < |es| && Single(es) && Awaits(es, i, n, sig)
    ensures Acceptable(o, es, SignedIn(n, sig))
  {
    AwaitedIndex(es, i, n, sig);
    forall j, k | 0 <= j < |es| && 0 <= k < |es[j].ins|
      ensures es[j].ins[k].txin.scriptSig != sig
    {
      assert k == 0;
    }
  }

  /** It takes the signature. */
  lemma {:induction false} AwaitedTaken(o: Oracle, s: Sigs, i: nat, n: nat, sig: nat)
    requires PassesAll(o, 0) && i < |s.entries| && Single(s.entries) && Awaits(s.entries, i, n, sig)
    ensures var t := SignedIn(n, sig);
            AddSigs(o, s, [t]) ==
              (Sigs(s.entries[i := SignedCoin(n, sig)], SignVin(s.vin, t), s.against[t := Check(|s.entries|, 0)]), true)
  {
    var t, es := SignedIn(n, sig), s.entries;
    OneSig(o, s, t);
    AwaitedIndex(es, i, n, sig);
    AwaitedPasses(o, es, i, n, sig);
    forall j | 0 <= j < i
      ensures SignEntry(es[j], t) == es[j]
    {
      assert FirstAt(es[j].ins, PlaceOf(t)) == 1;
    }
    assert FirstAt(es[i].ins, PlaceOf(t)) == 0;
    assert SignEntry(es[i], t).ins == [DSIn(t, true)];
    assert SignEntry(es[i], t) == SignedCoin(n, sig) != es[i];
    assert Taker(es, t) == i;
  }

  /** Sorted, two inputs come in the order of their outpoints. */
  lemma {:induction false} TwoSorted(vin: seq<TxIn>, x: TxIn, y: TxIn)
    requires multiset(vin) == multiset([x, y]) && PlacesSorted(PlacesOf(vin)) && x.prevout != y.prevout
    ensures vin == if x.prevout < y.prevout then [x, y] else [y, x]
  {
    assert |vin| == |multiset(vin)| == |multiset([x, y])| == 2;
    assert x in multiset([x, y]) && y in multiset([x, y]);
    assert x in vin && y in vin;
    assert PlaceAtMost(PlacesOf(vin)[0], PlacesOf(vin)[1]);
  }

  lemma {:induction false} TwoJoined(es: seq<Entry>)
    requires Single(es) && |es| == 2
    ensures JoinedIns(es) == [es[0].ins[0].txin, es[1].ins[0].txin] && |JoinedOuts(Outline(es))| == 2
  {
    SingleJoined(es);
  }

  /** A pool of two, between its messages. */
  ghost predicate At(pool: CDarksendPool, es: seq<Entry>, vin: seq<TxIn>, against: Record)
    reads pool
  {
    && pool.Valid() && pool.denoms == [1] && pool.max == 2 && pool.committed == []
    && pool.vecEntries == es && pool.final.vin == vin && pool.against == against
    && pool.nState == if |es| == 2 then Signing else AcceptingEntries
  }

  method FirstJoins(o: Oracle, n: nat) returns (pool: CDarksendPool)
    requires Permissive(o) && n > 0
    ensures fresh(pool) && pool.o == o && At(pool, [OneCoin(n)], [], map[])
  {
    pool := OpenPool(o, [1]);
    CoinMask([1], n);
    var ok := pool.DsVin(OneCoin(n), true);
  }

  /** The inputs of two entries, sorted. */
  function Sorted(x: TxIn, y: TxIn): seq<TxIn> { if x.prevout < y.prevout then [x, y] else [y, x] }

  lemma {:induction false} Joins(es: seq<Entry>, d: Entry, a: nat, n: nat)
    requires es == [d] && n != a && |d.ins| == 1 && d.ins[0].txin.prevout == a && d.outs == OneCoin(a).outs
    ensures Compatible([1], es, OneCoin(n).outs) && !SpendsOutpoint(d, n)
    ensures forall p :: SpendsOutpoint(OneCoin(n), p) ==> p == n
  {
    CoinMask([1], n);
    CoinMask([1], a);
  }

  method SecondJoins(pool: CDarksendPool, a: nat, d: Entry, n: nat, ghost against: Record)
    requires At(pool, [d], [], against) && Permissive(pool.o) && n > 0 && n != a
    requires |d.ins| == 1 && d.ins[0].txin.prevout == a && d.outs == OneCoin(a).outs
    modifies pool
    ensures At(pool, [d, OneCoin(n)], Sorted(d.ins[0].txin, SignedIn(n, 0)), against)
  {
    ghost var es, x := [d, OneCoin(n)], d.ins[0].txin;
    Joins([d], d, a, n);
    var ok := pool.DsVin(OneCoin(n), true);
    assert pool.vecEntries == es;
    TwoJoined(es);
    TwoSorted(pool.final.vin, x, SignedIn(n, 0));
  }

  method FirstSigns(pool: CDarksendPool, n: nat, sig: nat, ghost es: seq<Entry>, ghost fs: seq<Entry>,
                    ghost vin: seq<TxIn>, ghost against: Record)
    requires At(pool, es, vin, against) && PassesAll(pool.o, 0) && 1 <= |es| <= 2 && Single(es) && Awaits(es, 0, n, sig)
    requires fs == es[0 := SignedCoin(n, sig)] && (|fs| == 2 ==> !AllSigned(fs))
    modifies pool
    ensures At(pool, fs, SignVin(vin, SignedIn(n, sig)), against[SignedIn(n, sig) := Check(|es|, 0)])
  {
    AwaitedTaken(pool.o, pool.Signatures(), 0, n, sig);
    var ok := pool.DsSign([SignedIn(n, sig)], true);
  }

  /** The last of two signs, and the transaction is committed. */
  method SecondSigns(pool: CDarksendPool, n: nat, sig: nat, ghost es: seq<Entry>, ghost fs: seq<Entry>,
                     ghost vin: seq<TxIn>, ghost against: Record)
    requires At(pool, es, vin, against) && PassesAll(pool.o, 0) && |es| == 2 && Single(es) && Awaits(es, 1, n, sig)
    requires fs == es[1 := SignedCoin(n, sig)] && AllSigned(fs)
    modifies pool
    ensures pool.Valid() && |pool.committed| == 1
    ensures var m := pool.committed[0];
            m.tx.vin == SignVin(vin, SignedIn(n, sig)) && m.entries == fs &&
              m.against == against[SignedIn(n, sig) := Check(2, 0)]
    ensures Sound(pool.o, [1], 2, pool.committed[0])
  {
    AwaitedTaken(pool.o, pool.Signatures(), 1, n, sig);
    var ok := pool.DsSign([SignedIn(n, sig)], true);
    assert pool.committed[0] in pool.committed;
  }

  /** What an input of a transaction of two coins has to be signed with. */
  lemma {:induction false} TwoCommitted(o: Oracle, m: Mixed, q: nat)
    requires Sound(o, [1], 2, m) && CoinsAsk(o) && Single(m.entries) && |m.tx.vin| == 2 && q < 2
    ensures HoldsIn(o, m.tx, q) <==> m.tx.vin[q].scriptSig == 1200 + 10 * m.tx.vin[0].prevout + q
  {
    TwoJoined(m.entries);
    assert |m.tx.vout| == |multiset(m.tx.vout)| == 2;
    assert PlacesOf(m.tx.vin)[0] == PlaceOf(m.tx.vin[0]);
    assert Number(MessageAt(m.tx, q)) == 1200 + 10 * m.tx.vin[0].prevout + q;
  }

  /** One signature, and the other, in the transaction. */
  lemma {:induction false} SignSorted(x: TxIn, t: TxIn, y: TxIn, u: TxIn)
    requires x.prevout != y.prevout && PlaceOf(x) == PlaceOf(t) && PlaceOf(y) == PlaceOf(u)
    ensures SignVin(Sorted(x, y), t) == Sorted(t, y) && SignVin(Sorted(t, y), u) == Sorted(t, u)
  {
  }

  lemma {:induction false} FirstOfTwo(a: nat, b: nat, g: nat, es: seq<Entry>, fs: seq<Entry>)
    requires es == [OneCoin(a), OneCoin(b)] && fs == [SignedCoin(a, g), OneCoin(b)] && a != b && g > 0
    ensures Single(es) && Awaits(es, 0, a, g) && fs == es[0 := SignedCoin(a, g)] && !AllSigned(fs)
  {
    assert !fs[1].ins[0].fHasSig;
  }

  lemma {:induction false} SecondOfTwo(a: nat, b: nat, g: nat, h: nat, es: seq<Entry>, fs: seq<Entry>)
    requires es == [SignedCoin(a, g), OneCoin(b)] && fs == [SignedCoin(a, g), SignedCoin(b, h)] && a != b
    requires h > 0 && h != g
    ensures Single(es) && Awaits(es, 1, b, h) && fs == es[1 := SignedCoin(b, h)] && AllSigned(fs) && Single(fs)
  {
  }

  lemma {:induction false} EarlyEnd(o: Oracle, m: Mixed, t: TxIn, u: TxIn)
    requires t == SignedIn(1, 1110) && u == SignedIn(2, 1211)
    requires Sound(o, [1], 2, m) && CoinsAsk(o) && m.entries == [SignedCoin(1, 1110), SignedCoin(2, 1211)]
    requires m.tx.vin == Sorted(t, u) && m.against == map[t := Check(1, 0)][u := Check(2, 0)]
    ensures |m.tx.vin| == 2 && m.tx.vin[0] in m.against && m.against[m.tx.vin[0]] == Check(1, 0)
    ensures !HoldsIn(o, m.tx, 0) && HoldsIn(o, m.tx, 1)
  {
    TwoCommitted(o, m, 0);
    TwoCommitted(o, m, 1);
  }

  /** The first of two users makes a signature for script COIN while the other has not joined. The pool
      takes it, and commits a transaction in which it is not valid; that of the second user is. */
  method SignEarly(o: Oracle) returns (pool: CDarksendPool)
    requires CoinsAsk(o)
    ensures pool.o == o && pool.Valid() && |pool.committed| == 1
    ensures var m := pool.committed[0];
            && |m.tx.vin| == 2 && m.tx.vin[0] in m.against && m.against[m.tx.vin[0]] == Check(1, 0)
            && o.verify(PoolMessage(Outline([OneCoin(1)]), 1), COIN, m.tx.vin[0].scriptSig)
            && !HoldsIn(o, m.tx, 0) && HoldsIn(o, m.tx, 1)
  {
    ghost var t, u := SignedIn(1, 1110), SignedIn(2, 1211);
    pool := EarlySignature(o);
    ghost var es, fs := [SignedCoin(1, 1110), OneCoin(2)], [SignedCoin(1, 1110), SignedCoin(2, 1211)];
    SecondJoins(pool, 1, SignedCoin(1, 1110), 2, map[t := Check(1, 0)]);
    SecondOfTwo(1, 2, 1110, 1211, es, fs);
    SignSorted(t, t, SignedIn(2, 0), u);
    SecondSigns(pool, 2, 1211, es, fs, Sorted(t, SignedIn(2, 0)), map[t := Check(1, 0)]);
    EarlyEnd(o, pool.committed[0], t, u);
    NumberOfOne();
  }

  lemma {:induction false} NumberOfOne()
    ensures Number(PoolMessage(Outline([OneCoin(1)]), 1)) == 1110
  {
    var es := [OneCoin(1)];
    SingleJoined(es);
    JoinedSame(es);
    AwaitedIndex(es, 0, 1, 1);
    assert JoinedPlaces(Outline(es))[0] == PlaceOf(JoinedIns(es)[0]);
  }

  method EarlySignature(o: Oracle) returns (pool: CDarksendPool)
    requires CoinsAsk(o)
    ensures fresh(pool) && pool.o == o && At(pool, [SignedCoin(1, 1110)], [], map[SignedIn(1, 1110) := Check(1, 0)])
  {
    pool := FirstJoins(o, 1);
    ghost var none: Record := map[];
    FirstSigns(pool, 1, 1110, [OneCoin(1)], [SignedCoin(1, 1110)], [], none);
  }

  /** What user a, who joins first, and user b sign with in the committed transaction. */
  ghost predicate Outcome(o: Oracle, m: Mixed, a: nat, b: nat, g: nat, h: nat) {
    var t, u, least := SignedIn(a, g), SignedIn(b, h), if a < b then a else b;
    && m.tx.vin == Sorted(t, u) && m.entries == [SignedCoin(a, g), SignedCoin(b, h)]
    && (forall v :: v in m.tx.vin ==> v in m.against && m.against[v] == Check(2, 0))
    && (HoldsIn(o, m.tx, 0) <==> m.tx.vin[0].scriptSig == 1200 + 10 * least)
    && (HoldsIn(o, m.tx, 1) <==> m.tx.vin[1].scriptSig == 1201 + 10 * least)
  }

  lemma {:induction false} InTurnEnd(o: Oracle, m: Mixed, a: nat, b: nat, g: nat, h: nat)
    requires Sound(o, [1], 2, m) && CoinsAsk(o) && m.entries == [SignedCoin(a, g), SignedCoin(b, h)] && a != b
    requires var t, u := SignedIn(a, g), SignedIn(b, h);
             m.tx.vin == Sorted(t, u) && m.against == map[t := Check(2, 0)][u := Check(2, 0)]
    ensures Outcome(o, m, a, b, g, h)
  {
    assert Single(m.entries);
    TwoCommitted(o, m, 0);
    TwoCommitted(o, m, 1);
  }

  /** Two users join and then both sign, with whatever. The pool takes the signatures, with the empty
      script, and commits; each of them is valid for script COIN exactly when it is the number of its
      input in the committed transaction. */
  method SignInTurn(o: Oracle, a: nat, b: nat, g: nat, h: nat) returns (pool: CDarksendPool)
    requires CoinsAsk(o)
    requires a > 0 && b > 0 && a != b && g > 0 && h > 0 && g != h
    ensures fresh(pool) && pool.o == o && pool.Valid() && |pool.committed| == 1
    ensures Outcome(o, pool.committed[0], a, b, g, h)
  {
    ghost var t, u, y := SignedIn(a, g), SignedIn(b, h), SignedIn(b, 0);
    ghost var es, fs := [SignedCoin(a, g), OneCoin(b)], [SignedCoin(a, g), SignedCoin(b, h)];
    pool := FirstOfTwoSigns(o, a, b, g);
    SecondOfTwo(a, b, g, h, es, fs);
    SignSorted(t, t, y, u);
    SecondSigns(pool, b, h, es, fs, Sorted(t, y), map[t := Check(2, 0)]);
    InTurnEnd(o, pool.committed[0], a, b, g, h);
  }

  method FirstOfTwoSigns(o: Oracle, a: nat, b: nat, g: nat) returns (pool: CDarksendPool)
    requires CoinsAsk(o)
    requires a > 0 && b > 0 && a != b && g > 0
    ensures fresh(pool) && pool.o == o
    ensures At(pool, [SignedCoin(a, g), OneCoin(b)], Sorted(SignedIn(a, g), SignedIn(b, 0)),
               map[SignedIn(a, g) := Check(2, 0)])
  {
    ghost var es, fs := [OneCoin(a), OneCoin(b)], [SignedCoin(a, g), OneCoin(b)];
    ghost var x, y, none: Record := SignedIn(a, 0), SignedIn(b, 0), map[];
    pool := FirstJoins(o, a);
    SecondJoins(pool, a, OneCoin(a), b, none);
    FirstOfTwo(a, b, g, es, fs);
    SignSorted(x, SignedIn(a, g), y, y);
    FirstSigns(pool, a, g, es, fs, Sorted(x, y), none);
  }

  /** Both sign what is committed: both signatures are valid, in whatever order they joined. */
  method SignMerged(o: Oracle, a: nat, b: nat) returns (pool: CDarksendPool)
    requires CoinsAsk(o) && a > 0 && b > 0 && a != b
    ensures pool.o == o && pool.Valid() && |pool.committed| == 1 && |pool.committed[0].tx.vin| == 2
    ensures HoldsIn(o, pool.committed[0].tx, 0) && HoldsIn(o, pool.committed[0].tx, 1)
    ensures var es := pool.committed[0].entries;
            |es| == 2 && es[0].outs == OneCoin(a).outs && es[1].outs == OneCoin(b).outs
  {
    var g, h := if a < b then 1200 + 10 * a else 1201 + 10 * b, if a < b then 1201 + 10 * a else 1200 + 10 * b;
    pool := SignInTurn(o, a, b, g, h);
  }

  /** Both sign nothing at all, in time and after joining in the order of the transaction: it is
      committed, and none of its signatures is valid. */
  method SignNothing(o: Oracle) returns (pool: CDarksendPool)
    requires CoinsAsk(o)
    ensures pool.o == o && pool.Valid() && |pool.committed| == 1
    ensures var m := pool.committed[0];
            && |m.tx.vin| == 2 && (forall v :: v in m.tx.vin ==> v in m.against && m.against[v] == Check(2, 0))
            && PlacesSorted(JoinedPlaces(Outline(m.entries))) && OutsSorted(JoinedOuts(Outline(m.entries)))
            && (forall n, v :: v in m.tx.vin ==> !o.verify(n, COIN, v.scriptSig))
            && !HoldsIn(o, m.tx, 0) && !HoldsIn(o, m.tx, 1)
  {
    pool := SignInTurn(o, 1, 2, 1, 2);
    InOrder(1, 2, 1, 2);
  }

  lemma {:induction false} InOrder(a: nat, b: nat, g: nat, h: nat)
    requires a < b
    ensures var es := [SignedCoin(a, g), SignedCoin(b, h)];
            PlacesSorted(JoinedPlaces(Outline(es))) && OutsSorted(JoinedOuts(Outline(es)))
  {
    var es := [SignedCoin(a, g), SignedCoin(b, h)];
    TwoJoined(es);
    JoinedSame(es);
    JoinedNext(es, 0);
    JoinedNext(es, 1);
    assert es[..0] == [] && es[..2] == es;
  }
}
