/** What the operations of a mixing session come to, in terms of the inputs and outputs themselves. */
module MixingMeaning {
  import opened Bits
  import opened CoinsCodec
  import opened Mixing
  import opened MixingSigs

  // ---- the denominations a session may be opened for ----

  /** The remainder of a number halved. */
  lemma HalfRest(n: int, p: nat)
    requires p > 0
    ensures n % (2 * p) == 0 <==> n % 2 == 0 && (n / 2) % p == 0
  {
    var q, r := n / 2 / p, n / 2 % p;
    assert n / 2 == q * p + r;
    assert 2 * (q * p) == q * (2 * p) by { MulAssoc(2, q, p); MulAssoc(q, 2, p); }
    DivUnique(n, 2 * p, q, 2 * r + n % 2);
  }

  lemma HalfAt(n: int, i: nat)
    requires i > 0
    ensures n / Pow2(i) == n / 2 / Pow2(i - 1)
  {
    var p := Pow2(i - 1);
    var q, r := n / 2 / p, n / 2 % p;
    assert n / 2 == q * p + r;
    assert 2 * (q * p) == q * (2 * p) by { MulAssoc(2, q, p); MulAssoc(q, 2, p); }
    DivUnique(n, 2 * p, q, 2 * r + n % 2);
  }

  predicate BitAt(n: int, i: nat) { n / Pow2(i) % 2 == 1 }

  lemma BitHalf(n: int, i: nat)
    ensures BitAt(n, 0) <==> n % 2 == 1
    ensures i > 0 ==> (BitAt(n, i) <==> BitAt(n / 2, i - 1))
  {
    assert Pow2(0) == 1 && n / 1 == n;
    if i > 0 { HalfAt(n, i); }
  }

  /** A number has one of its lowest k bits exactly when 2^k does not divide it. */
  lemma {:induction false} SomeBit(n: int, k: nat)
    ensures (exists i :: 0 <= i < k && BitAt(n, i)) <==> n % Pow2(k) != 0
    decreases k
  {
    if k > 0 {
      SomeBit(n / 2, k - 1);
      HalfRest(n, Pow2(k - 1));
      BitHalf(n, 0);
      if i :| 0 <= i < k && BitAt(n, i) {
        BitHalf(n, i);
        if i > 0 { assert BitAt(n / 2, i - 1); }
      }
      if i :| 0 <= i < k - 1 && BitAt(n / 2, i) {
        BitHalf(n, i + 1);
        assert BitAt(n, i + 1);
      }
    } else {
      assert Pow2(0) == 1 && n % 1 == 0;
    }
  }

  lemma {:induction false} Unpacked(n: nat, k: nat) returns (bs: seq<bool>)
    requires n < Pow2(k)
    ensures |bs| == k && Pack(bs) == n
  {
    if k == 0 {
      bs := [];
    } else {
      var rest := Unpacked(n / 2, k - 1);
      bs := [n % 2 == 1] + rest;
      assert bs[1..] == rest;
    }
  }

  predicate Different(denoms: seq<int>) { forall i, j :: 0 <= i < j < |denoms| ==> denoms[i] != denoms[j] }

  /** One of the first k denominations that is chosen. */
  ghost predicate Chosen(denoms: seq<int>, bs: seq<bool>, k: nat, v: int)
    requires k <= |bs| <= |denoms|
  {
    exists j :: 0 <= j < k && bs[j] && denoms[j] == v
  }

  /** Outputs of the denominations chosen, and of no other. */
  ghost predicate OfChosen(denoms: seq<int>, bs: seq<bool>, k: nat, outs: seq<Out>)
    requires k <= |bs| <= |denoms|
  {
    && (forall i :: 0 <= i < |outs| ==> Chosen(denoms, bs, k, outs[i].nValue))
    && (forall j :: 0 <= j < k && bs[j] ==> HasValue(outs, denoms[j]))
  }

  lemma {:induction false} OutsFor(denoms: seq<int>, bs: seq<bool>, k: nat) returns (outs: seq<Out>)
    requires k <= |bs| <= |denoms|
    ensures OfChosen(denoms, bs, k, outs)
  {
    if k == 0 {
      outs := [];
    } else {
      var rest := OutsFor(denoms, bs, k - 1);
      outs := rest + if bs[k - 1] then [Out(denoms[k - 1], 0)] else [];
      forall i | 0 <= i < |outs|
        ensures Chosen(denoms, bs, k, outs[i].nValue)
      {
        if i < |rest| {
          assert Chosen(denoms, bs, k - 1, rest[i].nValue);
          assert outs[i] == rest[i];
        }
      }
      forall j | 0 <= j < k && bs[j]
        ensures HasValue(outs, denoms[j])
      {
        if j < k - 1 {
          var i :| 0 <= i < |rest| && rest[i].nValue == denoms[j];
          assert outs[i] == rest[i];
        } else {
          assert outs[|rest|].nValue == denoms[j];
        }
      }
    }
  }

  /** A mask of some outputs is a number of as many bits as there are denominations; every such number but
      0 is the mask of some outputs. */
  lemma {:induction false} MasksAre(denoms: seq<int>, n: nat)
    requires Different(denoms)
    ensures (exists outs :: Denominations(denoms, outs) == n) <==> n < Pow2(|denoms|)
  {
    if outs :| Denominations(denoms, outs) == n {
      PackBound(Used(denoms, outs));
    }
    if n < Pow2(|denoms|) {
      var bs := Unpacked(n, |denoms|);
      var outs := OutsFor(denoms, bs, |bs|);
      MaskOf(denoms, bs, outs);
    }
  }

  lemma {:induction false} MaskOf(denoms: seq<int>, bs: seq<bool>, outs: seq<Out>)
    requires Different(denoms) && |bs| == |denoms|
    requires OfChosen(denoms, bs, |bs|, outs)
    ensures Denominations(denoms, outs) == Pack(bs)
  {
    forall k | 0 <= k < |bs|
      ensures bs[k] <==> HasValue(outs, denoms[k])
    {
      if HasValue(outs, denoms[k]) {
        var i :| 0 <= i < |outs| && outs[i].nValue == denoms[k];
        assert Chosen(denoms, bs, |bs|, outs[i].nValue);
      }
    }
    forall i | 0 <= i < |outs|
      ensures outs[i].nValue in denoms
    {
      assert Chosen(denoms, bs, |bs|, outs[i].nValue);
    }
    assert Used(denoms, outs) == bs;
  }

  /** A session may be opened for the masks of outputs, and for negative numbers that 2^k does not divide,
      with k the number of denominations: those are the masks of no outputs at all. */
  lemma {:induction false} DenomOkIs(pool: CDarksendPool, n: int)
    ensures pool.IsDenomOk(n) <==> n < Pow2(|pool.denoms|) && n % Pow2(|pool.denoms|) != 0
    ensures n >= 0 && Different(pool.denoms) ==>
              (pool.IsDenomOk(n) <==> n != 0 && exists outs :: Denominations(pool.denoms, outs) == n)
    ensures pool.denoms != [] ==> pool.IsDenomOk(-1)
  {
    var k := |pool.denoms|;
    SomeBit(n, k);
    SomeBit(-1, k);
    IsBits(pool, n);
    IsBits(pool, -1);
    if n >= 0 && Different(pool.denoms) { MasksAre(pool.denoms, n); }
    if 0 <= n < Pow2(k) { DivUnique(n, Pow2(k), 0, n); }
    if k > 0 { DivUnique(-1, Pow2(k), -1, Pow2(k) - 1); }
  }

  lemma IsBits(pool: CDarksendPool, n: int)
    ensures pool.IsDenomOk(n) <==> n < Pow2(|pool.denoms|) && exists i :: 0 <= i < |pool.denoms| && BitAt(n, i)
  {
    if i :| 0 <= i < |pool.denoms| && n / Pow2(i) % 2 == 1 { assert BitAt(n, i); }
  }

  // ---- all the inputs and outputs ----

  lemma Three<T>(a: seq<T>, b: seq<T>, c: seq<T>)
    ensures a + (b + c) == (a + b) + c
  {
  }

  lemma {:induction false} MoreJoined(es: seq<Entry>, f: Entry)
    ensures JoinedIns(es + [f]) == JoinedIns(es) + TxIns(f.ins)
    ensures JoinedOuts(Outline(es + [f])) == JoinedOuts(Outline(es)) + f.outs
  {
    var n := |es|;
    JoinedNext(es + [f], n);
    assert (es + [f])[..n] == es && (es + [f])[..n + 1] == es + [f];
  }

  lemma {:induction false} OneJoined(e: Entry)
    ensures JoinedIns([e]) == TxIns(e.ins) && JoinedOuts(Outline([e])) == e.outs
  {
    MoreJoined([], e);
    assert [] + [e] == [e] && [] + TxIns(e.ins) == TxIns(e.ins) && [] + e.outs == e.outs;
  }

  /** The inputs and outputs in the pool are those of the entries, one entry after the other. */
  lemma {:induction false} OneAfterOther(es: seq<Entry>, fs: seq<Entry>, e: Entry)
    ensures JoinedIns(es + fs) == JoinedIns(es) + JoinedIns(fs)
    ensures JoinedOuts(Outline(es + fs)) == JoinedOuts(Outline(es)) + JoinedOuts(Outline(fs))
    ensures |JoinedIns([e])| == |e.ins| && forall k :: 0 <= k < |e.ins| ==> JoinedIns([e])[k] == e.ins[k].txin
    ensures JoinedOuts(Outline([e])) == e.outs
    decreases |fs|
  {
    OneJoined(e);
    if fs == [] {
      assert es + fs == es;
    } else {
      var n := |fs| - 1;
      var f, less := fs[n], fs[..n];
      OneAfterOther(es, less, e);
      MoreJoined(es + less, f);
      MoreJoined(less, f);
      assert fs == less + [f];
      Three(es, less, [f]);
      Three(JoinedIns(es), JoinedIns(less), TxIns(f.ins));
      Three(JoinedOuts(Outline(es)), JoinedOuts(Outline(less)), f.outs);
    }
  }

  // ---- one signature ----

  /** The last of all the inputs in the pool, in the order they joined, that spends an outpoint. */
  ghost predicate LastSpender(vin: seq<TxIn>, prevout: nat, k: int) {
    && -1 <= k < |vin| && (k >= 0 ==> vin[k].prevout == prevout)
    && forall j :: 0 <= j < |vin| && vin[j].prevout == prevout ==> j <= k
  }

  /** The first input of an entry that spends the outpoint with the sequence number of the signature waits. */
  ghost predicate WaitsFirst(e: Entry, k: int, t: TxIn) {
    && 0 <= k < |e.ins| && PlaceOf(e.ins[k].txin) == (t.prevout, t.nSequence) && !e.ins[k].fHasSig
    && forall j :: 0 <= j < k ==> PlaceOf(e.ins[j].txin) != (t.prevout, t.nSequence)
  }

  lemma {:induction false} FirstWaits(e: Entry, t: TxIn, k: int)
    ensures WaitsFirst(e, k, t) ==> k == FirstAt(e.ins, PlaceOf(t))
    ensures SignEntry(e, t) != e <==> WaitsFirst(e, FirstAt(e.ins, PlaceOf(t)), t)
    ensures SignEntry(e, t) != e ==> SignEntry(e, t) == e.(ins := e.ins[FirstAt(e.ins, PlaceOf(t)) := DSIn(t, true)])
  {
    var f := FirstAt(e.ins, PlaceOf(t));
    if WaitsFirst(e, f, t) { assert SignEntry(e, t).ins[f].fHasSig; }
  }

  /** What entry i waits for is what the signature is handed to, if no entry before it waits for it. */
  ghost predicate HandedTo(es: seq<Entry>, i: int, k: int, t: TxIn) {
    && 0 <= i < |es| && WaitsFirst(es[i], k, t)
    && forall j, l :: 0 <= j < i ==> !WaitsFirst(es[j], l, t)
  }

  function SignedOne(es: seq<Entry>, i: int, l: int, t: TxIn): seq<Entry>
    requires 0 <= i < |es| && 0 <= l < |es[i].ins|
  {
    es[i := es[i].(ins := es[i].ins[l := DSIn(t, true)])]
  }

  ghost predicate SignedAll(before: seq<TxIn>, after: seq<TxIn>, t: TxIn) {
    && |after| == |before|
    && forall q :: 0 <= q < |before| ==>
         after[q] == if PlaceOf(before[q]) == (t.prevout, t.nSequence) then t else before[q]
  }

  /** A signature is refused, and changes nothing, exactly when some input has it already, no input spends
      its outpoint, or it is not valid for all the inputs and outputs as they joined with the script of the
      last input that does. If it is not, every input of the merged transaction at its place takes it, and
      so does the first input waiting there; without one, it is refused after all. */
  lemma {:induction false} SignatureTaken(o: Oracle, s: Sigs, t: TxIn, u: Sigs, ok: bool, k: int)
    requires (u, ok) == AddSig(o, s, t) && LastSpender(JoinedIns(s.entries), t.prevout, k)
    ensures var es, vin := s.entries, JoinedIns(s.entries);
            var good := (forall i, j :: 0 <= i < |es| && 0 <= j < |es[i].ins| ==>
                           es[i].ins[j].txin.scriptSig != t.scriptSig) &&
                        k >= 0 && o.verify(Message(PlacesOf(vin), JoinedOuts(Outline(es)), k), vin[k].prevPubKey,
                                           t.scriptSig);
            && (!good ==> u == s && !ok)
            && (good ==> u.against == s.against[t := Check(|es|, vin[k].prevPubKey)] && SignedAll(s.vin, u.vin, t))
            && (good && !ok ==> u.entries == es && forall i, l :: !HandedTo(es, i, l, t))
            && (ok ==> good && exists i, l :: HandedTo(es, i, l, t) && u.entries == SignedOne(es, i, l, t))
  {
    var es, vin := s.entries, JoinedIns(s.entries);
    JoinedSame(es);
    var f := LastAt(PlacesOf(vin), t.prevout);
    assert f == k by {
      if f >= 0 { assert PlacesOf(vin)[f] == PlaceOf(vin[f]); }
      assert k >= 0 ==> PlacesOf(vin)[k] == PlaceOf(vin[k]);
    }
    var i := Taker(es, t);
    if i < |es| {
      FirstWaits(es[i], t, 0);
      forall j, l | 0 <= j < i
        ensures !WaitsFirst(es[j], l, t)
      {
        FirstWaits(es[j], t, l);
      }
      assert HandedTo(es, i, FirstAt(es[i].ins, PlaceOf(t)), t);
    } else {
      forall j, l
        ensures !HandedTo(es, j, l, t)
      {
        if 0 <= j < |es| { FirstWaits(es[j], t, l); }
      }
    }
  }

  // ---- several ----

  /** The signatures of a message are taken one after the other, until one is refused. */
  lemma {:induction false} MessageRun(o: Oracle, s: Sigs, ts: seq<TxIn>) returns (us: seq<Sigs>)
    ensures 1 <= |us| <= |ts| + 1 && us[0] == s && us[|us| - 1] == AddSigs(o, s, ts).0
    ensures forall j :: 0 <= j < |us| - 1 ==>
              AddSig(o, us[j], ts[j]) == (us[j + 1], j < |us| - 2 || AddSigs(o, s, ts).1)
    ensures AddSigs(o, s, ts).1 ==> |us| == |ts| + 1
    ensures !AddSigs(o, s, ts).1 ==> |us| >= 2
  {
    if ts == [] {
      us := [s];
    } else {
      var n := |ts| - 1;
      var before := MessageRun(o, s, ts[..n]);
      if AddSigs(o, s, ts[..n]).1 {
        us := before + [AddSigs(o, s, ts).0];
      } else {
        us := before;
      }
      forall j | 0 <= j < |us| - 1
        ensures AddSig(o, us[j], ts[j]) == (us[j + 1], j < |us| - 2 || AddSigs(o, s, ts).1)
      {
        if j < |before| - 1 { assert ts[..n][j] == ts[j]; }
      }
    }
  }

  // ---- what is committed ----

  ghost predicate InOrder(tx: Tx) {
    && (forall p, q :: 0 <= p < q < |tx.vin| ==> tx.vin[p].prevout < tx.vin[q].prevout)
    && forall p, q :: 0 <= p < q < |tx.vout| ==>
         tx.vout[p].nValue < tx.vout[q].nValue ||
         (tx.vout[p].nValue == tx.vout[q].nValue && tx.vout[p].script <= tx.vout[q].script)
  }

  /** The committed transaction has the inputs and the outputs of as many entries as the pool holds, each
      once, in order, with no outpoint spent twice; all the entries use the same denominations, and nothing
      else; and every input was signed. */
  lemma {:induction false} CommittedIs(o: Oracle, denoms: seq<int>, max: nat, m: Mixed)
    requires Sound(o, denoms, max, m)
    ensures |m.entries| == max && InOrder(m.tx)
    ensures multiset(PlacesOf(m.tx.vin)) == multiset(PlacesOf(JoinedIns(m.entries)))
    ensures multiset(m.tx.vout) == multiset(JoinedOuts(Outline(m.entries)))
    ensures forall i :: 0 <= i < max ==> m.entries[i].outs != []
    ensures forall i, k :: 0 <= i < max && 0 <= k < |m.entries[i].outs| ==> m.entries[i].outs[k].nValue in denoms
    ensures forall i, j, v :: 0 <= i < max && 0 <= j < max && HasValue(m.entries[i].outs, v) ==>
              HasValue(m.entries[j].outs, v)
    ensures forall i, k :: 0 <= i < max && 0 <= k < |m.entries[i].ins| ==> m.entries[i].ins[k].fHasSig
  {
    JoinedSame(m.entries);
    JoinedDistinct(m.entries);
    StillDistinct(PlacesOf(m.tx.vin), JoinedPlaces(Outline(m.entries)));
    StrictPlaces(m.tx.vin);
    HaveOuts(denoms, m.entries);
    assert forall p, q :: 0 <= p < q < |m.tx.vout| ==> OutAtMost(m.tx.vout[p], m.tx.vout[q]);
    forall i, j, v | 0 <= i < max && 0 <= j < max && HasValue(m.entries[i].outs, v)
      ensures HasValue(m.entries[j].outs, v)
    {
      MaskMeaning(denoms, m.entries[i].outs, m.entries[j].outs);
    }
    forall i | 0 <= i < max
      ensures AllDenominated(denoms, m.entries[i].outs)
    {
      MaskMeaning(denoms, m.entries[i].outs, m.entries[i].outs);
    }
  }

  lemma {:induction false} StrictPlaces(vin: seq<TxIn>)
    requires PlacesSorted(PlacesOf(vin)) && DistinctPlaces(PlacesOf(vin))
    ensures forall p, q :: 0 <= p < q < |vin| ==> vin[p].prevout < vin[q].prevout
  {
    forall p, q | 0 <= p < q < |vin|
      ensures vin[p].prevout < vin[q].prevout
    {
      assert PlaceAtMost(PlacesOf(vin)[p], PlacesOf(vin)[q]) && PlacesOf(vin)[p].0 != PlacesOf(vin)[q].0;
    }
  }

  /** The signature is valid for the input at k, which spends its outpoint. */
  predicate ValidAt(o: Oracle, ps: seq<Place>, outs: seq<Out>, k: int, script: nat, t: TxIn) {
    0 <= k < |ps| && ps[k].0 == t.prevout && o.verify(Message(ps, outs, k), script, t.scriptSig)
  }

  /** Each of its signatures was valid for the inputs and the outputs of the entries that had joined when it
      came, in the order they joined. */
  lemma {:induction false} CommittedChecked(o: Oracle, denoms: seq<int>, max: nat, m: Mixed, q: nat)
    returns (joined: seq<Shape>, k: int)
    requires Sound(o, denoms, max, m) && q < |m.tx.vin|
    ensures m.tx.vin[q] in m.against && m.against[m.tx.vin[q]].joined <= max
    ensures var v := m.tx.vin[q];
            && joined == Outline(m.entries)[..m.against[v].joined]
            && ValidAt(o, JoinedPlaces(joined), JoinedOuts(joined), k, m.against[v].script, v)
  {
    var v := m.tx.vin[q];
    assert WasChecked(o, Outline(m.entries), m.against, v);
    joined := Outline(m.entries)[..m.against[v].joined];
    k := LastAt(JoinedPlaces(joined), v.prevout);
  }
}
