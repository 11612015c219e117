/** Which of the signatures of a mixing transaction are valid in it: those made on the very
    transaction. What the pool checked them against when they came is another matter. */
module MixingSigs {
  import opened Mixing

  // ---- what is signed ----

  /** What an input of a transaction signs. */
  function MessageAt(tx: Tx, q: int): Message { Message(PlacesOf(tx.vin), tx.vout, q) }

  /** The signature of an input is valid for the transaction and the coin it spends. */
  predicate HoldsIn(o: Oracle, tx: Tx, q: nat)
    requires q < |tx.vin|
  {
    o.verify(MessageAt(tx, q), o.scriptOf(tx.vin[q].prevout), tx.vin[q].scriptSig)
  }

  /** A signature of the whole transaction, as of type SIGHASH_ALL. */
  ghost predicate SignsAll(o: Oracle, script: nat, sig: nat) {
    forall m, n {:trigger o.verify(m, script, sig), o.verify(n, script, sig)} ::
      o.verify(m, script, sig) && o.verify(n, script, sig) ==> m == n
  }

  predicate SameOwn(m: Message, n: Message) {
    0 <= m.index < |m.places| && 0 <= n.index < |n.places| && m.places[m.index] == n.places[n.index] && m.outs == n.outs
  }

  /** A signature of its own input and all the outputs, as of type SIGHASH_ALL|SIGHASH_ANYONECANPAY. */
  ghost predicate SignsOwn(o: Oracle, script: nat, sig: nat) {
    forall m, n {:trigger o.verify(m, script, sig), o.verify(n, script, sig)} ::
      o.verify(m, script, sig) ==> (o.verify(n, script, sig) <==> SameOwn(m, n))
  }

  ghost predicate SortedBy<T>(a: seq<T>, atMost: (T, T) -> bool) {
    forall i, j :: 0 <= i < j < |a| ==> atMost(a[i], a[j])
  }

  /** Different elements are strictly ordered. */
  ghost predicate StrictIn<T>(a: seq<T>, atMost: (T, T) -> bool) {
    forall i, j :: 0 <= i < |a| && 0 <= j < |a| && atMost(a[i], a[j]) && atMost(a[j], a[i]) ==> a[i] == a[j]
  }

  lemma {:induction false} SameFirst<T>(a: seq<T>, b: seq<T>, atMost: (T, T) -> bool)
    requires a != [] && multiset(a) == multiset(b) && SortedBy(a, atMost) && SortedBy(b, atMost) && StrictIn(a, atMost)
    ensures b != [] && a[0] == b[0]
  {
    assert a[0] in multiset(b);
    assert b[0] in multiset(a);
    var i, j :| 0 <= i < |a| && a[i] == b[0] && 0 <= j < |b| && b[j] == a[0];
    if i != 0 && j != 0 { assert atMost(a[0], a[i]) && atMost(b[0], b[j]); }
  }

  lemma {:induction false} Head<T>(a: seq<T>)
    requires a != []
    ensures multiset(a) == multiset(a[1..]) + multiset{a[0]}
  {
    assert a == [a[0]] + a[1..];
  }

  lemma {:induction false} SameRest<T>(a: seq<T>, b: seq<T>)
    requires a != [] && b != [] && multiset(a) == multiset(b) && a[0] == b[0]
    ensures multiset(a[1..]) == multiset(b[1..])
  {
    Head(a);
    Head(b);
    Cancel(multiset(a[1..]), multiset(b[1..]), a[0]);
  }

  lemma {:induction false} SortedUnique<T>(a: seq<T>, b: seq<T>, atMost: (T, T) -> bool)
    requires multiset(a) == multiset(b) && SortedBy(a, atMost) && SortedBy(b, atMost) && StrictIn(a, atMost)
    ensures a == b
  {
    if a == [] {
      assert |multiset(b)| == |multiset(a)| == 0;
    } else {
      SameFirst(a, b, atMost);
      SameRest(a, b);
      var c, d := a[1..], b[1..];
      assert SortedBy(c, atMost) && SortedBy(d, atMost) && StrictIn(c, atMost);
      SortedUnique(c, d, atMost);
      assert a == [a[0]] + c && b == [b[0]] + d;
    }
  }

  /** Sorting outputs changes nothing exactly when they are sorted. */
  lemma {:induction false} OutsMatch(vout: seq<Out>, joined: seq<Out>)
    requires multiset(vout) == multiset(joined) && OutsSorted(vout)
    ensures vout == joined <==> OutsSorted(joined)
  {
    if OutsSorted(joined) { SortedUnique(vout, joined, OutAtMost); }
  }

  ghost predicate DistinctPlaces(ps: seq<Place>) { forall i, j :: 0 <= i < j < |ps| ==> ps[i].0 != ps[j].0 }

  lemma {:induction false} DistinctOnce(ps: seq<Place>, p: Place)
    requires DistinctPlaces(ps)
    ensures multiset(ps)[p] <= 1
  {
    if ps != [] {
      var rest := ps[1..];
      Head(ps);
      forall i | 0 <= i < |rest|
        ensures rest[i] != ps[0]
      {
        assert rest[i] == ps[i + 1];
      }
      assert ps[0] !in multiset(rest);
      DistinctOnce(rest, p);
    }
  }

  /** In any order they are distinct. */
  lemma {:induction false} StillDistinct(ps: seq<Place>, qs: seq<Place>)
    requires DistinctPlaces(qs) && multiset(ps) == multiset(qs)
    ensures DistinctPlaces(ps)
  {
    forall i, j | 0 <= i < j < |ps|
      ensures ps[i].0 != ps[j].0
    {
      assert ps[i] in multiset(qs) && ps[j] in multiset(qs);
      TakeOut(ps, j);
      var rest := ps[..j] + ps[j + 1..];
      assert rest[i] == ps[i];
      assert ps[i] in multiset(rest);
      DistinctOnce(qs, ps[j]);
    }
  }

  /** Sorting inputs changes nothing exactly when they are sorted, if no two spend an outpoint. */
  lemma {:induction false} PlacesMatch(places: seq<Place>, joined: seq<Place>)
    requires multiset(places) == multiset(joined) && PlacesSorted(places) && DistinctPlaces(joined)
    ensures places == joined <==> PlacesSorted(joined)
  {
    if PlacesSorted(joined) { SortedUnique(joined, places, PlaceAtMost); }
  }

  /** A place in some entries is that of an input of one of them. */
  lemma {:induction false} PlaceListed(es: seq<Entry>, k: nat)
    requires k < |JoinedPlaces(Outline(es))|
    ensures exists i :: 0 <= i < |es| && SpendsOutpoint(es[i], JoinedPlaces(Outline(es))[k].0)
  {
    var n := |es| - 1;
    var ps, before := JoinedPlaces(Outline(es)), JoinedPlaces(Outline(es[..n]));
    assert Outline(es)[..n] == Outline(es[..n]);
    if k < |before| {
      PlaceListed(es[..n], k);
      var i :| 0 <= i < n && SpendsOutpoint(es[..n][i], before[k].0);
      assert SpendsOutpoint(es[i], ps[k].0);
    } else {
      assert ps[k] == PlaceOf(es[n].ins[k - |before|].txin);
      assert SpendsOutpoint(es[n], ps[k].0);
    }
  }

  lemma {:induction false} JoinedDistinct(es: seq<Entry>)
    requires NoneShared(es) && AllDistinct(es)
    ensures DistinctPlaces(JoinedPlaces(Outline(es)))
  {
    if es != [] {
      var n := |es| - 1;
      var ps, before := JoinedPlaces(Outline(es)), JoinedPlaces(Outline(es[..n]));
      assert Outline(es)[..n] == Outline(es[..n]);
      JoinedDistinct(es[..n]);
      forall i, j | 0 <= i < j < |ps|
        ensures ps[i].0 != ps[j].0
      {
        if |before| <= j {
          assert ps[j] == PlaceOf(es[n].ins[j - |before|].txin);
          if i < |before| {
            PlaceListed(es[..n], i);
            assert SpendsOutpoint(es[n], ps[j].0);
          } else {
            assert ps[i] == PlaceOf(es[n].ins[i - |before|].txin);
          }
        }
      }
    }
  }

  /** The first entries come first; they have all the outputs only if they are all the entries. */
  lemma {:induction false} FirstOnes(es: seq<Entry>, n: nat)
    requires n <= |es| && forall i :: 0 <= i < |es| ==> es[i].outs != []
    ensures JoinedPlaces(Outline(es)[..n]) <= JoinedPlaces(Outline(es))
    ensures n < |es| ==> |JoinedOuts(Outline(es)[..n])| < |JoinedOuts(Outline(es))|
    decreases |es|
  {
    var l, ss := |es| - 1, Outline(es);
    if n < |es| {
      FirstOnes(es[..l], n);
      assert ss[..l] == Outline(es[..l]) && ss[..l][..n] == ss[..n];
      assert ss[l].outs == es[l].outs != [];
    } else {
      assert ss[..n] == ss;
    }
  }

  /** In a transaction that merges some entries, as in the pool, an outpoint has one place. */
  lemma {:induction false} OwnPlace(tx: Tx, ps: seq<Place>, q: nat, k: int)
    requires multiset(PlacesOf(tx.vin)) == multiset(ps) && DistinctPlaces(ps) && q < |tx.vin|
    requires 0 <= k < |ps| && ps[k].0 == tx.vin[q].prevout
    ensures ps[k] == PlaceOf(tx.vin[q])
    ensures PlacesOf(tx.vin) == ps ==> k == q
  {
    assert PlacesOf(tx.vin)[q] in multiset(ps);
    var j :| 0 <= j < |ps| && ps[j] == PlaceOf(tx.vin[q]);
    assert j == k;
  }

  lemma {:induction false} HaveOuts(denoms: seq<int>, es: seq<Entry>)
    requires SameMask(denoms, es)
    ensures forall i :: 0 <= i < |es| ==> es[i].outs != []
  {
    forall i | 0 <= i < |es|
      ensures es[i].outs != []
    {
      MaskMeaning(denoms, es[i].outs, []);
    }
  }

  // ---- messages about some of the entries ----

  /** A message that lists the first j entries, in any order, and belongs to the input that spends
      the outpoint. */
  ghost predicate MadeOn(n: Message, es: seq<Entry>, j: nat, prevout: nat) {
    && j <= |es| && multiset(n.places) == multiset(JoinedPlaces(Outline(es)[..j]))
    && multiset(n.outs) == multiset(JoinedOuts(Outline(es)[..j]))
    && 0 <= n.index < |n.places| && n.places[n.index].0 == prevout
  }

  /** A transaction that merges entries which share no outpoint, and one of its inputs. */
  ghost predicate Merged(tx: Tx, es: seq<Entry>, q: nat) {
    && NoneShared(es) && AllDistinct(es) && Merges(tx, es) && q < |tx.vin|
    && forall i :: 0 <= i < |es| ==> es[i].outs != []
  }

  /** Whatever lists the first entries has the place of the input in the transaction. */
  lemma {:induction false} MadePlace(tx: Tx, es: seq<Entry>, n: Message, j: nat, q: nat)
    requires Merged(tx, es, q) && MadeOn(n, es, j, tx.vin[q].prevout)
    ensures n.places[n.index] == PlaceOf(tx.vin[q])
  {
    var ps, first := JoinedPlaces(Outline(es)), JoinedPlaces(Outline(es)[..j]);
    JoinedDistinct(es);
    FirstOnes(es, j);
    assert n.places[n.index] in multiset(first);
    var k :| 0 <= k < |first| && first[k] == n.places[n.index];
    assert ps[k] == first[k];
    OwnPlace(tx, ps, q, k);
  }

  /** It is what the input signs exactly when it lists all the entries, in the order of the
      transaction; and agrees with that in its own input and the outputs exactly when it lists all
      the entries, with the outputs in order. */
  lemma {:induction false} MadeIsCommitted(tx: Tx, es: seq<Entry>, n: Message, j: nat, q: nat)
    requires Merged(tx, es, q) && MadeOn(n, es, j, tx.vin[q].prevout)
    ensures n == MessageAt(tx, q) <==> j == |es| && PlacesSorted(n.places) && OutsSorted(n.outs)
    ensures SameOwn(n, MessageAt(tx, q)) <==> j == |es| && OutsSorted(n.outs)
  {
    MadePlace(tx, es, n, j, q);
    FirstOnes(es, j);
    if j == |es| {
      assert Outline(es)[..j] == Outline(es);
      JoinedDistinct(es);
      StillDistinct(n.places, JoinedPlaces(Outline(es)));
      OutsMatch(tx.vout, n.outs);
      PlacesMatch(PlacesOf(tx.vin), n.places);
      OwnPlace(tx, n.places, q, n.index);
    } else {
      assert |n.outs| == |multiset(n.outs)| < |JoinedOuts(Outline(es))| == |multiset(tx.vout)| == |tx.vout|;
    }
  }

  /** So is what the pool checks a signature against when n entries have joined. */
  lemma {:induction false} PoolMade(es: seq<Entry>, n: nat, prevout: nat)
    requires n <= |es| && PoolMessage(Outline(es)[..n], prevout).index >= 0
    ensures MadeOn(PoolMessage(Outline(es)[..n], prevout), es, n, prevout)
  {
  }

  lemma {:induction false} SoundMerged(o: Oracle, denoms: seq<int>, max: nat, m: Mixed, q: nat)
    requires Sound(o, denoms, max, m) && q < |m.tx.vin|
    ensures Merged(m.tx, m.entries, q)
  {
    HaveOuts(denoms, m.entries);
  }

  // ---- committed signatures ----

  /** Which signatures of a committed transaction are valid for the scripts of their coins: those made
      on the transaction, or that agree with it in what they sign. A signature made on the first j
      entries is, if j is all of them and it lists them in the order of the transaction; for one of
      its own input and the outputs, if it lists the outputs in order. */
  lemma {:induction false} CommittedHolds(o: Oracle, denoms: seq<int>, max: nat, m: Mixed, q: nat, n: Message, j: nat)
    requires Sound(o, denoms, max, m) && q < |m.tx.vin|
    requires o.verify(n, o.scriptOf(m.tx.vin[q].prevout), m.tx.vin[q].scriptSig)
    ensures var v := m.tx.vin[q];
            var script, all := o.scriptOf(v.prevout), j == max && OutsSorted(n.outs);
            && (SignsAll(o, script, v.scriptSig) ==> (HoldsIn(o, m.tx, q) <==> n == MessageAt(m.tx, q)))
            && (SignsOwn(o, script, v.scriptSig) ==> (HoldsIn(o, m.tx, q) <==> SameOwn(n, MessageAt(m.tx, q))))
            && (MadeOn(n, m.entries, j, v.prevout) ==>
                  && (SignsAll(o, script, v.scriptSig) ==> (HoldsIn(o, m.tx, q) <==> all && PlacesSorted(n.places)))
                  && (SignsOwn(o, script, v.scriptSig) ==> (HoldsIn(o, m.tx, q) <==> all)))
  {
    SoundMerged(o, denoms, max, m, q);
    if MadeOn(n, m.entries, j, m.tx.vin[q].prevout) { MadeIsCommitted(m.tx, m.entries, n, j, q); }
  }

  /** When the pool itself checked with the script of the coin, what it checked against is what was
      signed: then the signature had to come after all the entries, and they had to join in order. */
  lemma {:induction false} CheckedHolds(o: Oracle, denoms: seq<int>, max: nat, m: Mixed, q: nat)
    requires Sound(o, denoms, max, m) && q < |m.tx.vin|
    ensures m.tx.vin[q] in m.against && m.against[m.tx.vin[q]].joined <= max
    ensures var v := m.tx.vin[q];
            var c, ps, outs := m.against[v], JoinedPlaces(Outline(m.entries)), JoinedOuts(Outline(m.entries));
            c.script == o.scriptOf(v.prevout) ==>
              && (c.joined == max && PlacesSorted(ps) && OutsSorted(outs) ==> HoldsIn(o, m.tx, q))
              && (SignsAll(o, c.script, v.scriptSig) ==>
                    (HoldsIn(o, m.tx, q) <==> c.joined == max && PlacesSorted(ps) && OutsSorted(outs)))
              && (SignsOwn(o, c.script, v.scriptSig) ==>
                    (HoldsIn(o, m.tx, q) <==> c.joined == max && OutsSorted(outs)))
  {
    var v, ss := m.tx.vin[q], Outline(m.entries);
    assert WasChecked(o, ss, m.against, v);
    var c := m.against[v];
    SoundMerged(o, denoms, max, m, q);
    PoolMade(m.entries, c.joined, v.prevout);
    MadeIsCommitted(m.tx, m.entries, PoolMessage(ss[..c.joined], v.prevout), c.joined, q);
    assert ss[..max] == ss;
  }

  // ---- what the pool makes of a signature ----

  /** A script under which a signature passes or fails whatever it is for; so do signatures that only
      push data under the empty script. */
  ghost predicate Unread(o: Oracle, script: nat, sig: nat) {
    forall m, n {:trigger o.verify(m, script, sig), o.verify(n, script, sig)} ::
      o.verify(m, script, sig) <==> o.verify(n, script, sig)
  }

  predicate Spent(es: seq<Entry>, prevout: nat) { exists i :: 0 <= i < |es| && SpendsOutpoint(es[i], prevout) }

  /** The pool finds an input for a signature exactly when some entry spends its outpoint. */
  lemma {:induction false} SpentFound(es: seq<Entry>, prevout: nat)
    ensures LastAt(JoinedPlaces(Outline(es)), prevout) >= 0 <==> Spent(es, prevout)
  {
    var ps := JoinedPlaces(Outline(es));
    var k := LastAt(ps, prevout);
    if k >= 0 { PlaceListed(es, k); }
    if Spent(es, prevout) {
      var i :| 0 <= i < |es| && SpendsOutpoint(es[i], prevout);
      var a :| 0 <= a < |es[i].ins| && es[i].ins[a].txin.prevout == prevout;
      var b := InputJoined(es, i, a);
      assert ps[b].0 == prevout;
    }
  }

  lemma {:induction false} InputJoined(es: seq<Entry>, i: nat, a: nat) returns (b: nat)
    requires i < |es| && a < |es[i].ins|
    ensures b < |JoinedPlaces(Outline(es))| && JoinedPlaces(Outline(es))[b] == PlaceOf(es[i].ins[a].txin)
    decreases |es|
  {
    var n := |es| - 1;
    var before := JoinedPlaces(Outline(es[..n]));
    assert Outline(es)[..n] == Outline(es[..n]);
    if i == n {
      b := |before| + a;
    } else {
      b := InputJoined(es[..n], i, a);
    }
  }

  /** Checked with a script that does not read it, a new signature is accepted for any outpoint in
      the pool, or for none, whatever else is in the pool and in whatever order it joined. */
  lemma {:induction false} AcceptedUnread(o: Oracle, es: seq<Entry>, t: TxIn, any: Message)
    requires Unread(o, PoolScript(es, t.prevout), t.scriptSig)
    ensures Acceptable(o, es, t) <==>
              !HasSig(es, t.scriptSig) && Spent(es, t.prevout) && o.verify(any, PoolScript(es, t.prevout), t.scriptSig)
  {
    SpentFound(es, t.prevout);
    var m, script := PoolMessage(Outline(es), t.prevout), PoolScript(es, t.prevout);
    assert o.verify(m, script, t.scriptSig) <==> o.verify(any, script, t.scriptSig);
  }

  /** A signature made for the merged transaction: with the script of the coin, the pool finds it valid
      exactly when the entries had joined in order; with one that does not read it, in any order or
      in none. */
  lemma {:induction false} MadeForCommitted(o: Oracle, es: seq<Entry>, tx: Tx, q: nat, script: nat, sig: nat)
    requires Merged(tx, es, q) && o.verify(MessageAt(tx, q), script, sig)
    ensures var t, ps, outs := tx.vin[q].(scriptSig := sig), JoinedPlaces(Outline(es)), JoinedOuts(Outline(es));
            var p := PoolScript(es, t.prevout);
            && (p == script && SignsAll(o, script, sig) ==>
                  (Verifies(o, Outline(es), p, t) <==> PlacesSorted(ps) && OutsSorted(outs)))
            && (p == script && SignsOwn(o, script, sig) ==> (Verifies(o, Outline(es), p, t) <==> OutsSorted(outs)))
            && (Unread(o, p, sig) ==> (Verifies(o, Outline(es), p, t) <==> o.verify(MessageAt(tx, q), p, sig)))
  {
    var ss, t := Outline(es), tx.vin[q].(scriptSig := sig);
    var ps, m := JoinedPlaces(ss), PoolMessage(ss, t.prevout);
    assert PlacesOf(tx.vin)[q] in multiset(ps);
    var j :| 0 <= j < |ps| && ps[j] == PlaceOf(tx.vin[q]);
    assert m.index >= j;
    assert ss[..|es|] == ss;
    PoolMade(es, |es|, t.prevout);
    MadeIsCommitted(tx, es, m, |es|, q);
  }
}
