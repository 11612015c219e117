/** The mixing session as a safenode runs it: users queue up with collaterals, hand in entries, the
    entries are merged into one transaction, and that is committed once everyone has signed. */
module Mixing {
  import opened Bits
  import opened CoinsCodec

  datatype State = Idle | Queue | AcceptingEntries | Signing

  /** An outpoint is a number, zero for the null one. */
  datatype TxIn = TxIn(prevout: nat, nSequence: nat, scriptSig: nat, prevPubKey: nat)

  datatype Out = Out(nValue: int, script: nat)

  datatype DSIn = DSIn(txin: TxIn, fHasSig: bool)

  datatype Entry = Entry(ins: seq<DSIn>, outs: seq<Out>, collateral: nat)

  datatype Tx = Tx(vin: seq<TxIn>, vout: seq<Out>)

  type Place = (nat, nat)

  function PlaceOf(x: TxIn): Place { (x.prevout, x.nSequence) }

  /** The places and the outputs of an entry. */
  datatype Shape = Shape(places: seq<Place>, outs: seq<Out>)

  /** What a signature signs: the inputs and the outputs of a transaction, in order, and which of
      the inputs it belongs to. */
  datatype Message = Message(places: seq<Place>, outs: seq<Out>, index: int)

  /** The checks made by the rest of the node, the scripts of the coins, and the two sort orders. A
      signature is verified for a message with a script. */
  datatype Oracle = Oracle(collateralOk: nat -> bool, entryOk: Entry -> bool, verify: (Message, nat, nat) -> bool,
                           scriptOf: nat -> nat, sortIn: seq<TxIn> -> seq<TxIn>, sortOut: seq<Out> -> seq<Out>)

  predicate PlaceAtMost(p: Place, q: Place) { p.0 <= q.0 }

  predicate OutAtMost(a: Out, b: Out) { a.nValue < b.nValue || (a.nValue == b.nValue && a.script <= b.script) }

  /** Inputs by outpoint alone, outputs by value and then script. */
  ghost predicate PlacesSorted(ps: seq<Place>) { forall i, j :: 0 <= i < j < |ps| ==> PlaceAtMost(ps[i], ps[j]) }

  ghost predicate OutsSorted(outs: seq<Out>) { forall i, j :: 0 <= i < j < |outs| ==> OutAtMost(outs[i], outs[j]) }

  ghost predicate SortsOk(o: Oracle) {
    && (forall s :: multiset(o.sortIn(s)) == multiset(s) && PlacesSorted(PlacesOf(o.sortIn(s))))
    && (forall s :: multiset(o.sortOut(s)) == multiset(s) && OutsSorted(o.sortOut(s)))
  }

  /** An entry that passes its checks spends no outpoint twice. */
  predicate DistinctIns(e: Entry) {
    forall i, j :: 0 <= i < j < |e.ins| ==> e.ins[i].txin.prevout != e.ins[j].txin.prevout
  }

  ghost predicate OracleOk(o: Oracle) { SortsOk(o) && forall e :: o.entryOk(e) ==> DistinctIns(e) }

  // ---- denominations ----

  /** Which denominations are used by some outputs. */
  function Used(denoms: seq<int>, outs: seq<Out>): (r: seq<bool>)
    ensures |r| == |denoms| && forall k :: 0 <= k < |denoms| ==> (r[k] <==> HasValue(outs, denoms[k]))
  {
    seq(|denoms|, k requires 0 <= k < |denoms| => HasValue(outs, denoms[k]))
  }

  predicate HasValue(outs: seq<Out>, value: int) { exists i :: 0 <= i < |outs| && outs[i].nValue == value }

  predicate AllDenominated(denoms: seq<int>, outs: seq<Out>) {
    forall i :: 0 <= i < |outs| ==> outs[i].nValue in denoms
  }

  /** One bit for every denomination used; zero when some output is of none. */
  function Denominations(denoms: seq<int>, outs: seq<Out>): nat {
    if AllDenominated(denoms, outs) then Pack(Used(denoms, outs)) else 0
  }

  method GetDenominations(denoms: seq<int>, outs: seq<Out>) returns (nDenom: nat)
    ensures nDenom == Denominations(denoms, outs)
  {
    var used: seq<bool> := seq(|denoms|, _ => false);
    for i := 0 to |outs|
      invariant |used| == |denoms| && AllDenominated(denoms, outs[..i])
      invariant forall k :: 0 <= k < |denoms| ==> (used[k] <==> HasValue(outs[..i], denoms[k]))
    {
      var found := false;
      ghost var before := used;
      for k := 0 to |denoms|
        invariant |used| == |denoms| && (found <==> outs[i].nValue in denoms[..k])
        invariant forall j :: 0 <= j < |denoms| ==> used[j] == (before[j] || (j < k && denoms[j] == outs[i].nValue))
      {
        if outs[i].nValue == denoms[k] {
          used := used[k := true];
          found := true;
        }
      }
      assert denoms[..|denoms|] == denoms;
      if !found { return 0; }
      OneMoreOutput(outs, i, denoms);
    }
    assert outs[..|outs|] == outs;
    assert used == Used(denoms, outs);
    nDenom := 0;
    for c := 0 to |denoms|
      invariant nDenom == Pack(used[..c])
    {
      PackSnoc(used, c);
      if used[c] { nDenom := BitOr(nDenom, Pow2(c)); }
    }
    assert used[..|denoms|] == used;
  }

  lemma OneMoreOutput(outs: seq<Out>, i: nat, denoms: seq<int>)
    requires i < |outs|
    ensures forall v :: HasValue(outs[..i + 1], v) <==> HasValue(outs[..i], v) || outs[i].nValue == v
    ensures AllDenominated(denoms, outs[..i + 1]) <==> AllDenominated(denoms, outs[..i]) && outs[i].nValue in denoms
  {
    var l := outs[..i + 1];
    assert l[i] == outs[i];
    assert forall j :: 0 <= j < i ==> l[j] == outs[..i][j];
    forall v
      ensures HasValue(l, v) <==> HasValue(outs[..i], v) || outs[i].nValue == v
    {
      if j :| 0 <= j < i && outs[..i][j].nValue == v { assert l[j].nValue == v; }
      if outs[i].nValue == v { assert l[i].nValue == v; }
    }
  }

  /** The mask is zero unless there are outputs and all are denominated; and outputs of equal,
      non-zero masks use the same denominations. */
  lemma MaskMeaning(denoms: seq<int>, a: seq<Out>, b: seq<Out>)
    ensures Denominations(denoms, a) != 0 <==> a != [] && AllDenominated(denoms, a)
    ensures Denominations(denoms, a) == Denominations(denoms, b) != 0 ==>
              forall v :: HasValue(a, v) <==> HasValue(b, v)
  {
    PackZero(Used(denoms, a));
    PackZero(Used(denoms, b));
    if a != [] && AllDenominated(denoms, a) {
      var k :| 0 <= k < |denoms| && denoms[k] == a[0].nValue;
      assert HasValue(a, denoms[k]) && Used(denoms, a)[k];
    }
    if Denominations(denoms, a) == Denominations(denoms, b) != 0 {
      SameValues(denoms, a, b);
    }
  }

  lemma SameValues(denoms: seq<int>, a: seq<Out>, b: seq<Out>)
    requires AllDenominated(denoms, a) && AllDenominated(denoms, b) && Pack(Used(denoms, a)) == Pack(Used(denoms, b))
    ensures forall v :: HasValue(a, v) <==> HasValue(b, v)
  {
    forall v
      ensures HasValue(a, v) <==> HasValue(b, v)
    {
      if v in denoms {
        var k :| 0 <= k < |denoms| && denoms[k] == v;
        PackBit(Used(denoms, a), k);
        PackBit(Used(denoms, b), k);
      }
    }
  }

  // ---- entries ----

  function Places(ins: seq<DSIn>): (r: seq<Place>)
    ensures |r| == |ins| && forall i :: 0 <= i < |ins| ==> r[i] == PlaceOf(ins[i].txin)
  {
    seq(|ins|, i requires 0 <= i < |ins| => PlaceOf(ins[i].txin))
  }

  function ShapeOf(e: Entry): Shape { Shape(Places(e.ins), e.outs) }

  function Outline(es: seq<Entry>): (r: seq<Shape>)
    ensures |r| == |es| && forall i :: 0 <= i < |es| ==> r[i] == ShapeOf(es[i])
  {
    seq(|es|, i requires 0 <= i < |es| => ShapeOf(es[i]))
  }

  function TxIns(ins: seq<DSIn>): (r: seq<TxIn>)
    ensures |r| == |ins| && forall i :: 0 <= i < |ins| ==> r[i] == ins[i].txin
  {
    seq(|ins|, i requires 0 <= i < |ins| => ins[i].txin)
  }

  function PlacesOf(vin: seq<TxIn>): (r: seq<Place>)
    ensures |r| == |vin| && forall i :: 0 <= i < |vin| ==> r[i] == PlaceOf(vin[i])
  {
    seq(|vin|, i requires 0 <= i < |vin| => PlaceOf(vin[i]))
  }

  /** The places of all the inputs, and all the outputs, of some entries as they joined. */
  function JoinedPlaces(ss: seq<Shape>): seq<Place> {
    if ss == [] then [] else JoinedPlaces(ss[..|ss| - 1]) + ss[|ss| - 1].places
  }

  function JoinedOuts(ss: seq<Shape>): seq<Out> {
    if ss == [] then [] else JoinedOuts(ss[..|ss| - 1]) + ss[|ss| - 1].outs
  }

  /** All the inputs of some entries as they joined. */
  function JoinedIns(es: seq<Entry>): seq<TxIn> {
    if es == [] then [] else JoinedIns(es[..|es| - 1]) + TxIns(es[|es| - 1].ins)
  }

  lemma {:induction false} JoinedSame(es: seq<Entry>)
    ensures PlacesOf(JoinedIns(es)) == JoinedPlaces(Outline(es))
  {
    if es != [] {
      var n := |es| - 1;
      JoinedSame(es[..n]);
      assert Outline(es)[..n] == Outline(es[..n]);
      assert PlacesOf(JoinedIns(es)) == PlacesOf(JoinedIns(es[..n])) + Places(es[n].ins);
    }
  }

  predicate SpendsOutpoint(e: Entry, prevout: nat) { exists i :: 0 <= i < |e.ins| && e.ins[i].txin.prevout == prevout }

  /** No two entries spend the same outpoint. */
  ghost predicate NoneShared(es: seq<Entry>) {
    forall i, j, p :: 0 <= i < j < |es| && SpendsOutpoint(es[i], p) ==> !SpendsOutpoint(es[j], p)
  }

  /** All entries have one denomination mask, not zero. */
  ghost predicate SameMask(denoms: seq<int>, es: seq<Entry>) {
    forall i :: 0 <= i < |es| ==>
      Denominations(denoms, es[i].outs) == Denominations(denoms, es[0].outs) && Denominations(denoms, es[i].outs) != 0
  }

  ghost predicate AllDistinct(es: seq<Entry>) { forall i :: 0 <= i < |es| ==> DistinctIns(es[i]) }

  /** The transaction is the entries merged and sorted, whatever its signatures. */
  ghost predicate Merges(tx: Tx, es: seq<Entry>) {
    && multiset(PlacesOf(tx.vin)) == multiset(JoinedPlaces(Outline(es))) && PlacesSorted(PlacesOf(tx.vin))
    && multiset(tx.vout) == multiset(JoinedOuts(Outline(es))) && OutsSorted(tx.vout)
  }

  predicate AllSigned(es: seq<Entry>) {
    forall i, k :: 0 <= i < |es| && 0 <= k < |es[i].ins| ==> es[i].ins[k].fHasSig
  }

  /** Some input at the place is not signed yet. */
  predicate UnsignedAt(es: seq<Entry>, p: Place) {
    exists i, k :: 0 <= i < |es| && 0 <= k < |es[i].ins| && PlaceOf(es[i].ins[k].txin) == p && !es[i].ins[k].fHasSig
  }

  /** The last place with an outpoint, or -1. */
  function LastAt(ps: seq<Place>, prevout: nat): (k: int)
    ensures -1 <= k < |ps| && (k >= 0 ==> ps[k].0 == prevout)
    ensures forall j :: k < j < |ps| ==> ps[j].0 != prevout
  {
    if ps == [] then -1 else if ps[|ps| - 1].0 == prevout then |ps| - 1 else LastAt(ps[..|ps| - 1], prevout)
  }

  /** What the pool checks a signature for that outpoint against: the entries as they joined, not
      sorted, and the script that came with the input in the pool. */
  function PoolMessage(ss: seq<Shape>, prevout: nat): Message {
    var ps := JoinedPlaces(ss);
    Message(ps, JoinedOuts(ss), LastAt(ps, prevout))
  }

  function ScriptAt(vin: seq<TxIn>, k: int): nat
    requires k < |vin|
  {
    if k >= 0 then vin[k].prevPubKey else 0
  }

  function PoolScript(es: seq<Entry>, prevout: nat): nat {
    var vin := JoinedIns(es);
    ScriptAt(vin, LastAt(PlacesOf(vin), prevout))
  }

  /** How many entries were in the pool when a signature was checked, and with which script. */
  datatype Check = Check(joined: nat, script: nat)

  /** The signatures that were accepted, each with its check. */
  type Record = map<TxIn, Check>

  predicate Verifies(o: Oracle, ss: seq<Shape>, script: nat, t: TxIn) {
    var m := PoolMessage(ss, t.prevout);
    m.index >= 0 && o.verify(m, script, t.scriptSig)
  }

  /** A signature was checked against the entries that were in the pool at the time. */
  predicate WasChecked(o: Oracle, ss: seq<Shape>, against: Record, t: TxIn) {
    t in against && against[t].joined <= |ss| && Verifies(o, ss[..against[t].joined], against[t].script, t)
  }

  ghost predicate RecordOk(o: Oracle, ss: seq<Shape>, against: Record) {
    forall t :: t in against ==> WasChecked(o, ss, against, t)
  }

  /** Whatever is marked signed was accepted. */
  ghost predicate EntriesRecorded(es: seq<Entry>, against: Record) {
    forall i, k :: 0 <= i < |es| && 0 <= k < |es[i].ins| && es[i].ins[k].fHasSig ==> es[i].ins[k].txin in against
  }

  /** An input of the merged transaction carries a signature that was accepted, or waits for one. */
  ghost predicate VinRecorded(es: seq<Entry>, vin: seq<TxIn>, against: Record) {
    forall v :: v in vin ==> v in against || UnsignedAt(es, PlaceOf(v))
  }

  /** A committed transaction, the entries it was made of, and the record of its signatures. */
  datatype Mixed = Mixed(tx: Tx, entries: seq<Entry>, against: Record)

  ghost predicate Sound(o: Oracle, denoms: seq<int>, max: nat, m: Mixed) {
    && |m.entries| == max && NoneShared(m.entries) && AllDistinct(m.entries) && SameMask(denoms, m.entries)
    && Merges(m.tx, m.entries) && AllSigned(m.entries)
    && forall v :: v in m.tx.vin ==> WasChecked(o, Outline(m.entries), m.against, v)
  }

  /** The entry check, which looks at the other entries and not at the session's denomination. */
  predicate Compatible(denoms: seq<int>, es: seq<Entry>, outs: seq<Out>) {
    Denominations(denoms, outs) != 0 &&
    forall i :: 0 <= i < |es| ==> Denominations(denoms, es[i].outs) == Denominations(denoms, outs)
  }

  // ---- signing ----

  /** The first input at a place. */
  function FirstAt(ins: seq<DSIn>, p: Place): (k: nat)
    ensures k <= |ins| && (k < |ins| ==> PlaceOf(ins[k].txin) == p)
    ensures forall j :: 0 <= j < k ==> PlaceOf(ins[j].txin) != p
  {
    if ins == [] || PlaceOf(ins[0].txin) == p then 0 else 1 + FirstAt(ins[1..], p)
  }

  /** The entry with its first input at the place of t signed, unless there is none or it is signed. */
  function SignEntry(e: Entry, t: TxIn): Entry {
    var k := FirstAt(e.ins, PlaceOf(t));
    if k == |e.ins| || e.ins[k].fHasSig then e else e.(ins := e.ins[k := DSIn(t, true)])
  }

  /** Signing changes no place and no output, and marks inputs at the place of t only. */
  lemma SignEntryKeeps(e: Entry, t: TxIn)
    ensures ShapeOf(SignEntry(e, t)) == ShapeOf(e) && |SignEntry(e, t).ins| == |e.ins|
    ensures forall k :: 0 <= k < |e.ins| ==>
              SignEntry(e, t).ins[k] == e.ins[k] || PlaceOf(e.ins[k].txin) == PlaceOf(t)
    ensures forall p :: SpendsOutpoint(SignEntry(e, t), p) <==> SpendsOutpoint(e, p)
  {
  }

  /** Every input of the transaction at the place of t takes its signature. */
  function SignVin(vin: seq<TxIn>, t: TxIn): (r: seq<TxIn>)
    ensures |r| == |vin|
    ensures forall i :: 0 <= i < |vin| ==> r[i] == if PlaceOf(vin[i]) == PlaceOf(t) then t else vin[i]
  {
    seq(|vin|, i requires 0 <= i < |vin| => if PlaceOf(vin[i]) == PlaceOf(t) then t else vin[i])
  }

  lemma SignVinPlaces(vin: seq<TxIn>, t: TxIn)
    ensures PlacesOf(SignVin(vin, t)) == PlacesOf(vin)
  {
  }

  lemma ReplaceEntry(denoms: seq<int>, es: seq<Entry>, i: nat, t: TxIn)
    requires i < |es| && NoneShared(es) && AllDistinct(es) && SameMask(denoms, es)
    ensures var fs := es[i := SignEntry(es[i], t)];
            NoneShared(fs) && AllDistinct(fs) && SameMask(denoms, fs) && Outline(fs) == Outline(es)
  {
    var fs := es[i := SignEntry(es[i], t)];
    SignEntryKeeps(es[i], t);
    forall a, b, p | 0 <= a < b < |fs| && SpendsOutpoint(fs[a], p)
      ensures !SpendsOutpoint(fs[b], p)
    {
      assert SpendsOutpoint(es[a], p);
    }
    forall j | 0 <= j < |fs|
      ensures fs[j].outs == es[j].outs
    {
      assert ShapeOf(fs[j]) == ShapeOf(es[j]);
    }
  }

  /** The first entry that takes the signature; past the end, if there is none. */
  function Taker(es: seq<Entry>, t: TxIn): (i: nat)
    ensures i <= |es| && (i < |es| ==> SignEntry(es[i], t) != es[i])
    ensures forall j :: 0 <= j < i ==> SignEntry(es[j], t) == es[j]
  {
    if es == [] || SignEntry(es[0], t) != es[0] then 0 else 1 + Taker(es[1..], t)
  }

  /** The pool's signatures: its entries, the inputs of its transaction, and the record. */
  datatype Sigs = Sigs(entries: seq<Entry>, vin: seq<TxIn>, against: Record)

  predicate HasSig(es: seq<Entry>, scriptSig: nat) {
    exists i, k :: 0 <= i < |es| && 0 <= k < |es[i].ins| && es[i].ins[k].txin.scriptSig == scriptSig
  }

  /** New, and valid for one of the inputs as the entries stand. */
  predicate Acceptable(o: Oracle, es: seq<Entry>, t: TxIn) {
    !HasSig(es, t.scriptSig) && Verifies(o, Outline(es), PoolScript(es, t.prevout), t)
  }

  /** One signature: whether an entry took it, and what became of the pool's signatures. */
  function AddSig(o: Oracle, s: Sigs, t: TxIn): (Sigs, bool) {
    if !Acceptable(o, s.entries, t) then (s, false) else TakeSig(s, t)
  }

  function CheckOf(es: seq<Entry>, t: TxIn): Check { Check(|es|, PoolScript(es, t.prevout)) }

  function TakeSig(s: Sigs, t: TxIn): (Sigs, bool) { TakeWith(s, t, CheckOf(s.entries, t)) }

  function TakeWith(s: Sigs, t: TxIn, c: Check): (Sigs, bool) {
    (Sigs(Handed(s.entries, t), SignVin(s.vin, t), s.against[t := c]), Taker(s.entries, t) < |s.entries|)
  }

  /** The entries once the first that takes the signature has it. */
  function Handed(es: seq<Entry>, t: TxIn): seq<Entry> {
    var i := Taker(es, t);
    if i == |es| then es else es[i := SignEntry(es[i], t)]
  }

  /** Several, up to the first that is not taken. */
  function AddSigs(o: Oracle, s: Sigs, ts: seq<TxIn>): (Sigs, bool) {
    if ts == [] then (s, true)
    else
      var (u, ok) := AddSigs(o, s, ts[..|ts| - 1]);
      if ok then AddSig(o, u, ts[|ts| - 1]) else (u, false)
  }

  lemma NextSig(o: Oracle, s: Sigs, ts: seq<TxIn>, i: nat, u: Sigs)
    requires i < |ts| && AddSigs(o, s, ts[..i]) == (u, true)
    ensures AddSigs(o, s, ts[..i + 1]) == AddSig(o, u, ts[i])
  {
    assert ts[..i + 1][..i] == ts[..i];
  }

  /** What is not taken ends the message. */
  lemma {:induction false} Refused(o: Oracle, s: Sigs, ts: seq<TxIn>, n: nat)
    requires n <= |ts| && !AddSigs(o, s, ts[..n]).1
    ensures AddSigs(o, s, ts) == AddSigs(o, s, ts[..n])
    decreases |ts|
  {
    if n < |ts| {
      var m := |ts| - 1;
      assert ts[..m][..n] == ts[..n];
      Refused(o, s, ts[..m], n);
    } else {
      assert ts[..n] == ts;
    }
  }

  /** Accepting one more signature keeps the record right. */
  lemma RecordMore(o: Oracle, ss: seq<Shape>, against: Record, t: TxIn, c: Check)
    requires RecordOk(o, ss, against) && c.joined == |ss| && Verifies(o, ss, c.script, t)
    ensures RecordOk(o, ss, against[t := c])
  {
    assert ss[..|ss|] == ss;
    forall u | u in against && u != t
      ensures WasChecked(o, ss, against[t := c], u)
    {
      assert WasChecked(o, ss, against, u);
    }
  }

  /** So does an entry that joins. */
  lemma RecordLonger(o: Oracle, ss: seq<Shape>, more: seq<Shape>, against: Record)
    requires RecordOk(o, ss, against) && ss <= more
    ensures RecordOk(o, more, against)
  {
    forall t | t in against
      ensures WasChecked(o, more, against, t)
    {
      assert WasChecked(o, ss, against, t) && more[..against[t].joined] == ss[..against[t].joined];
    }
  }

  /** The entry that takes a signature has it at one input, where there was none. */
  lemma SignedInput(e: Entry, t: TxIn) returns (k: nat)
    requires SignEntry(e, t) != e
    ensures k < |e.ins| && PlaceOf(e.ins[k].txin) == PlaceOf(t) && !e.ins[k].fHasSig
    ensures SignEntry(e, t) == e.(ins := e.ins[k := DSIn(t, true)])
  {
    k := FirstAt(e.ins, PlaceOf(t));
  }

  lemma EntryRecorded(es: seq<Entry>, against: Record, i: nat, t: TxIn)
    requires EntriesRecorded(es, against) && i < |es| && SignEntry(es[i], t) != es[i] && t in against
    ensures EntriesRecorded(es[i := SignEntry(es[i], t)], against)
  {
    var k := SignedInput(es[i], t);
  }

  /** In the transaction all inputs at the place are signed; elsewhere nothing changes. */
  lemma VinSigned(es: seq<Entry>, fs: seq<Entry>, vin: seq<TxIn>, against: Record, c: Check, t: TxIn)
    requires VinRecorded(es, vin, against) && |fs| == |es|
    requires forall i :: 0 <= i < |es| ==> fs[i] == es[i] || fs[i] == SignEntry(es[i], t)
    ensures VinRecorded(fs, SignVin(vin, t), against[t := c])
  {
    forall v | v in SignVin(vin, t)
      ensures v in against[t := c] || UnsignedAt(fs, PlaceOf(v))
    {
      if v != t && v !in against {
        var q :| 0 <= q < |vin| && SignVin(vin, t)[q] == v;
        assert v == vin[q] && v in vin && PlaceOf(v) != PlaceOf(t);
        StillUnsigned(es, fs, t, PlaceOf(v));
      }
    }
  }

  lemma StillUnsigned(es: seq<Entry>, fs: seq<Entry>, t: TxIn, p: Place)
    requires UnsignedAt(es, p) && p != PlaceOf(t) && |fs| == |es|
    requires forall i :: 0 <= i < |es| ==> fs[i] == es[i] || fs[i] == SignEntry(es[i], t)
    ensures UnsignedAt(fs, p)
  {
    var i, k :| 0 <= i < |es| && 0 <= k < |es[i].ins| && PlaceOf(es[i].ins[k].txin) == p && !es[i].ins[k].fHasSig;
    SignEntryKeeps(es[i], t);
    assert fs[i].ins[k] == es[i].ins[k];
  }

  lemma {:induction false} InputListed(es: seq<Entry>, v: TxIn)
    requires v in JoinedIns(es)
    ensures exists i, k :: 0 <= i < |es| && 0 <= k < |es[i].ins| && es[i].ins[k].txin == v
  {
    var n := |es| - 1;
    if v in TxIns(es[n].ins) {
      var k :| 0 <= k < |es[n].ins| && TxIns(es[n].ins)[k] == v;
      assert es[n].ins[k].txin == v;
    } else {
      InputListed(es[..n], v);
      var i, k :| 0 <= i < n && 0 <= k < |es[..n][i].ins| && es[..n][i].ins[k].txin == v;
      assert es[i].ins[k].txin == v;
    }
  }

  /** Merged as they are, the inputs carry the signatures accepted so far. */
  lemma MergedRecorded(es: seq<Entry>, vin: seq<TxIn>, against: Record)
    requires EntriesRecorded(es, against) && multiset(vin) == multiset(JoinedIns(es))
    ensures VinRecorded(es, vin, against)
  {
    forall v | v in vin
      ensures v in against || UnsignedAt(es, PlaceOf(v))
    {
      assert v in multiset(vin);
      InputListed(es, v);
      var i, k :| 0 <= i < |es| && 0 <= k < |es[i].ins| && es[i].ins[k].txin == v;
      if !es[i].ins[k].fHasSig { assert UnsignedAt(es, PlaceOf(v)); }
    }
  }

  /** Once every entry is signed, every input of the merged transaction carries an accepted signature. */
  lemma AllChecked(o: Oracle, es: seq<Entry>, vin: seq<TxIn>, against: Record)
    requires RecordOk(o, Outline(es), against) && VinRecorded(es, vin, against) && AllSigned(es)
    ensures forall v :: v in vin ==> WasChecked(o, Outline(es), against, v)
  {
    forall v | v in vin
      ensures WasChecked(o, Outline(es), against, v)
    {
      assert v in against || UnsignedAt(es, PlaceOf(v));
    }
  }

  /** The transaction and the record fit the entries. */
  ghost predicate Coherent(o: Oracle, st: State, es: seq<Entry>, final: Tx, against: Record) {
    && RecordOk(o, Outline(es), against)
    && (if st == Signing then Merges(final, es) && VinRecorded(es, final.vin, against)
        else final == Tx([], []) && EntriesRecorded(es, against))
  }

  lemma {:induction false} EnterCoherent(o: Oracle, st: State, es: seq<Entry>, final: Tx, against: Record, t: TxIn,
                                         c: Check)
    requires Coherent(o, st, es, final, against) && c.joined == |es| && Verifies(o, Outline(es), c.script, t)
    ensures Coherent(o, st, es, final.(vin := SignVin(final.vin, t)), against[t := c])
  {
    SignVinPlaces(final.vin, t);
    RecordMore(o, Outline(es), against, t, c);
    if st == Signing { VinSigned(es, es, final.vin, against, c, t); }
  }

  lemma {:induction false} SignCoherent(o: Oracle, st: State, es: seq<Entry>, fs: seq<Entry>, final: Tx,
                                        against: Record, i: nat, t: TxIn)
    requires Coherent(o, st, es, final, against) && t in against && final.vin == SignVin(final.vin, t)
    requires i < |es| && SignEntry(es[i], t) != es[i] && fs == es[i := SignEntry(es[i], t)] &&
             Outline(fs) == Outline(es)
    ensures Coherent(o, st, fs, final, against)
  {
    assert against[t := against[t]] == against;
    if st == Signing {
      VinSigned(es, fs, final.vin, against, against[t], t);
    } else {
      EntryRecorded(es, against, i, t);
    }
  }

  // ---- the pool ----

  class CDarksendPool {
    const o: Oracle
    const denoms: seq<int>
    const max: nat
    var vecSessionCollaterals: seq<nat>
    var vecEntries: seq<Entry>
    var nState: State
    var nSessionID: nat
    var nSessionDenom: int
    var final: Tx
    ghost var against: Record
    ghost var committed: seq<Mixed>

    predicate IsSessionReady()
      reads this
    {
      |vecSessionCollaterals| >= max
    }

    ghost predicate Valid()
      reads this
    {
      && max >= 1 && OracleOk(o)
      && (nSessionID == 0 <==> nState == Idle)
      && |vecSessionCollaterals| <= max && |vecEntries| <= max
      && (nState == Idle ==> vecSessionCollaterals == [] && nSessionDenom == 0)
      && (vecEntries != [] ==> IsSessionReady())
      && (nState == AcceptingEntries || nState == Signing ==> IsSessionReady())
      && NoneShared(vecEntries) && AllDistinct(vecEntries) && SameMask(denoms, vecEntries)
      && (nState == Signing ==> |vecEntries| == max)
      && Coherent(o, nState, vecEntries, final, against)
      && (forall m :: m in committed ==> Sound(o, denoms, max, m))
    }

    constructor (oracle: Oracle, denominations: seq<int>, poolMax: nat)
      requires poolMax >= 1 && OracleOk(oracle)
      ensures Valid() && committed == [] && nState == Idle
      ensures o == oracle && denoms == denominations && max == poolMax
    {
      o, denoms, max := oracle, denominations, poolMax;
      committed := [];
      vecSessionCollaterals, vecEntries, nState, nSessionID, nSessionDenom, final := [], [], Idle, 0, 0, Tx([], []);
      against := map[];
    }

    method SetNull()
      requires Valid()
      modifies this
      ensures Valid() && nState == Idle && vecEntries == [] && committed == old(committed)
      ensures nSessionDenom == 0 && vecSessionCollaterals == []
    {
      vecSessionCollaterals := [];
      nState := Idle;
      nSessionID := 0;
      nSessionDenom := 0;
      vecEntries := [];
      final := Tx([], []);
      against := map[];
    }

    /** At least one denomination, and none out of bounds. */
    predicate IsDenomOk(nDenom: int) {
      nDenom < Pow2(|denoms|) && exists i :: 0 <= i < |denoms| && nDenom / Pow2(i) % 2 == 1
    }

    predicate IsAcceptableDenomAndCollateral(nDenom: int, collateral: nat) {
      IsDenomOk(nDenom) && o.collateralOk(collateral)
    }

    method CreateNewSession(nDenom: int, collateral: nat, random: nat) returns (ok: bool)
      requires Valid() && nSessionID == 0
      modifies this
      ensures Valid() && committed == old(committed)
      ensures ok <==> IsDenomOk(nDenom) && o.collateralOk(collateral)
      ensures ok ==> nState == Queue && nSessionDenom == nDenom && 1 <= nSessionID <= 999999
      ensures ok ==> vecSessionCollaterals == [collateral] && vecEntries == []
      ensures !ok ==> nState == Idle
    {
      assert nState == Idle;
      if !IsAcceptableDenomAndCollateral(nDenom, collateral) { return false; }
      nSessionID := random % 999999 + 1;
      nSessionDenom := nDenom;
      nState := Queue;
      vecSessionCollaterals := vecSessionCollaterals + [collateral];
      ok := true;
    }

    method AddUserToExistingSession(nDenom: int, collateral: nat) returns (ok: bool)
      requires Valid() && nSessionID != 0
      modifies this`vecSessionCollaterals
      ensures Valid()
      ensures ok <==> |old(vecSessionCollaterals)| < max && IsDenomOk(nDenom) && o.collateralOk(collateral) &&
                      nState == Queue && nDenom == nSessionDenom
      ensures vecSessionCollaterals == old(vecSessionCollaterals) + if ok then [collateral] else []
    {
      assert vecSessionCollaterals == vecSessionCollaterals + [];
      if IsSessionReady() { return false; }
      if !IsAcceptableDenomAndCollateral(nDenom, collateral) { return false; }
      if nState != Queue { return false; }
      if nDenom != nSessionDenom { return false; }
      vecSessionCollaterals := vecSessionCollaterals + [collateral];
      ok := true;
    }

    /** A user asks to mix. */
    method DsAccept(nDenom: int, collateral: nat, listed: bool, tooRecent: bool, random: nat) returns (ok: bool)
      requires Valid()
      modifies this
      ensures Valid() && committed == old(committed)
      ensures ok <==> |old(vecSessionCollaterals)| < max && listed &&
                      (old(vecSessionCollaterals) == [] ==> !tooRecent) &&
                      IsDenomOk(nDenom) && o.collateralOk(collateral) &&
                      (old(nSessionID) != 0 ==> old(nState) == Queue && old(nSessionDenom) == nDenom)
      ensures ok ==> nState == Queue && nSessionDenom == nDenom
      ensures if ok && old(nSessionID) == 0 then 1 <= nSessionID <= 999999 else nSessionID == old(nSessionID)
      ensures !ok ==> nState == old(nState) && nSessionDenom == old(nSessionDenom)
      ensures vecSessionCollaterals == old(vecSessionCollaterals) + if ok then [collateral] else []
      ensures vecEntries == old(vecEntries)
    {
      if IsSessionReady() { return false; }
      if !listed { return false; }
      if |vecSessionCollaterals| == 0 && tooRecent { return false; }
      if nSessionID == 0 {
        ok := CreateNewSession(nDenom, collateral, random);
      } else {
        ok := AddUserToExistingSession(nDenom, collateral);
      }
    }

    /** Enough users: start taking entries. */
    method CheckForCompleteQueue()
      requires Valid()
      modifies this`nState
      ensures Valid()
      ensures nState == if old(nState) == Queue && |vecSessionCollaterals| >= max then AcceptingEntries else old(nState)
    {
      if nState == Queue && IsSessionReady() { nState := AcceptingEntries; }
    }

    method IsOutputsCompatibleWithSessionDenom(outs: seq<Out>) returns (ok: bool)
      ensures ok == Compatible(denoms, vecEntries, outs)
    {
      var mine := GetDenominations(denoms, outs);
      if mine == 0 { return false; }
      for i := 0 to |vecEntries|
        invariant forall j :: 0 <= j < i ==> Denominations(denoms, vecEntries[j].outs) == Denominations(denoms, outs)
      {
        var theirs := GetDenominations(denoms, vecEntries[i].outs);
        if mine != theirs { return false; }
      }
      ok := true;
    }

    /** No outpoint of the entry is null, and none is that of an input in the pool. */
    ghost predicate FreshIns(entry: Entry)
      reads this
    {
      && (forall k :: 0 <= k < |entry.ins| ==> entry.ins[k].txin.prevout != 0)
      && forall k, i, j :: 0 <= k < |entry.ins| && 0 <= i < |vecEntries| && 0 <= j < |vecEntries[i].ins| ==>
           entry.ins[k].txin.prevout != vecEntries[i].ins[j].txin.prevout
    }

    method AddEntry(entry: Entry) returns (ok: bool)
      requires Valid() && IsSessionReady() && nState != Idle
      requires forall k :: 0 <= k < |entry.ins| ==> !entry.ins[k].fHasSig
      requires Compatible(denoms, vecEntries, entry.outs) && DistinctIns(entry)
      modifies this`vecEntries
      ensures Valid()
      ensures ok <==> old(FreshIns(entry)) && o.collateralOk(entry.collateral) && |old(vecEntries)| < max
      ensures vecEntries == if ok then old(vecEntries) + [entry] else old(vecEntries)
    {
      for k := 0 to |entry.ins|
        invariant forall j :: 0 <= j < k ==> entry.ins[j].txin.prevout != 0
      {
        if entry.ins[k].txin.prevout == 0 { return false; }
      }
      if !o.collateralOk(entry.collateral) { return false; }
      if |vecEntries| >= max { return false; }
      for k := 0 to |entry.ins|
        invariant forall j, i :: 0 <= j < k && 0 <= i < |vecEntries| ==>
                  !SpendsOutpoint(vecEntries[i], entry.ins[j].txin.prevout)
      {
        for i := 0 to |vecEntries|
          invariant forall j :: 0 <= j < i ==> !SpendsOutpoint(vecEntries[j], entry.ins[k].txin.prevout)
        {
          if SpendsOutpoint(vecEntries[i], entry.ins[k].txin.prevout) {
            assert SpendsOutpoint(entry, entry.ins[k].txin.prevout);
            return false;
          }
        }
      }
      EntryAdded(denoms, vecEntries, entry, against);
      RecordLonger(o, Outline(vecEntries), Outline(vecEntries + [entry]), against);
      vecEntries := vecEntries + [entry];
      ok := true;
    }

    /** A user hands in an entry. One turned down by the first checks changes nothing; one turned
        down by the last resets the session; the last one to join has the entries merged. */
    method DsVin(entry: Entry, accept: bool) returns (ok: bool)
      requires Valid() && forall k :: 0 <= k < |entry.ins| ==> !entry.ins[k].fHasSig
      modifies this
      ensures Valid() && committed == old(committed)
      ensures var heard := |old(vecSessionCollaterals)| >= max && Compatible(denoms, old(vecEntries), entry.outs) &&
                           o.entryOk(entry);
              && (ok <==> heard && old(FreshIns(entry)) && o.collateralOk(entry.collateral) && |old(vecEntries)| < max)
              && (!heard ==> vecEntries == old(vecEntries) && nState == old(nState) && against == old(against) &&
                             final == old(final) && nSessionID == old(nSessionID))
              && (heard && !ok ==> vecEntries == [] && nState == Idle)
              && (ok ==> vecEntries == old(vecEntries) + [entry])
              && nSessionDenom == (if heard && !ok then 0 else old(nSessionDenom))
              && vecSessionCollaterals == (if heard && !ok then [] else old(vecSessionCollaterals))
              && (ok ==> nState == if old(nState) == AcceptingEntries && |vecEntries| == max then Signing
                                   else old(nState))
              && (ok ==> against == old(against) && old(nState) != Signing)
              && (ok && nState == Signing ==> multiset(final.vin) == multiset(JoinedIns(vecEntries)))
    {
      if !IsSessionReady() { return false; }
      var compatible := IsOutputsCompatibleWithSessionDenom(entry.outs);
      if !compatible { return false; }
      if !o.entryOk(entry) { return false; }
      ok := AddEntry(entry);
      if ok { CheckPool(accept); } else { SetNull(); }
    }

    method CreateFinalTransaction()
      requires Valid() && nState == AcceptingEntries && |vecEntries| == max
      modifies this`final, this`nState
      ensures Valid() && nState == Signing && multiset(final.vin) == multiset(JoinedIns(vecEntries))
    {
      var vin, vout := MergeEntries();
      SamePlaces(o.sortIn(vin), vin);
      MergedRecorded(vecEntries, o.sortIn(vin), against);
      JoinedSame(vecEntries);
      final := Tx(o.sortIn(vin), o.sortOut(vout));
      nState := Signing;
    }

    method MergeEntries() returns (vin: seq<TxIn>, vout: seq<Out>)
      ensures vin == JoinedIns(vecEntries) && vout == JoinedOuts(Outline(vecEntries))
    {
      vin, vout := [], [];
      for i := 0 to |vecEntries|
        invariant vin == JoinedIns(vecEntries[..i]) && vout == JoinedOuts(Outline(vecEntries[..i]))
      {
        JoinedNext(vecEntries, i);
        vout := vout + vecEntries[i].outs;
        vin := vin + TxIns(vecEntries[i].ins);
      }
      assert vecEntries[..|vecEntries|] == vecEntries;
    }

    ghost function Signatures(): Sigs
      reads this
    {
      Sigs(vecEntries, final.vin, against)
    }

    /** The signature is checked against the entries as they stand, not sorted, for the last input
        with its outpoint and with the script of that one. */
    method IsInputScriptSigValid(t: TxIn) returns (ok: bool)
      ensures ok == Verifies(o, Outline(vecEntries), PoolScript(vecEntries, t.prevout), t)
    {
      var es := vecEntries;
      var vin, vout := [], [];
      var nTxInIndex, sigPubKey := -1, 0;
      for i := 0 to |es|
        invariant vin == JoinedIns(es[..i]) && vout == JoinedOuts(Outline(es[..i]))
        invariant Located(vin, t.prevout, nTxInIndex, sigPubKey)
      {
        JoinedNext(es, i);
        vout := vout + es[i].outs;
        vin, nTxInIndex, sigPubKey := PushInputs(vin, es[i].ins, t.prevout, nTxInIndex, sigPubKey);
      }
      assert es[..|es|] == es;
      JoinedSame(es);
      ok := nTxInIndex >= 0 && o.verify(Message(PlacesOf(vin), vout, nTxInIndex), sigPubKey, t.scriptSig);
    }

    /** A new signature, valid for one of the inputs, goes into the transaction, and into the first
        entry that has an unsigned input at its place. */
    method AddScriptSig(t: TxIn) returns (ok: bool)
      requires Valid()
      modifies this`final, this`vecEntries, this`against
      ensures Valid() && Outline(vecEntries) == Outline(old(vecEntries)) && final.vout == old(final).vout
      ensures (Signatures(), ok) == AddSig(o, old(Signatures()), t)
    {
      if HasSig(vecEntries, t.scriptSig) { return false; }
      ok := IsInputScriptSigValid(t);
      if !ok { return false; }
      ok := TakeScriptSig(t, CheckOf(vecEntries, t));
    }

    method TakeScriptSig(t: TxIn, ghost c: Check) returns (ok: bool)
      requires Valid() && c.joined == |vecEntries| && Verifies(o, Outline(vecEntries), c.script, t)
      modifies this`final, this`vecEntries, this`against
      ensures Valid() && Outline(vecEntries) == Outline(old(vecEntries)) && final.vout == old(final).vout
      ensures (Signatures(), ok) == TakeWith(old(Signatures()), t, c)
    {
      EnterSig(t, c);
      ok := HandOut(t);
    }

    /** The signature in the transaction. */
    method EnterSig(t: TxIn, ghost c: Check)
      requires Valid() && c.joined == |vecEntries| && Verifies(o, Outline(vecEntries), c.script, t)
      modifies this`final, this`against
      ensures Valid() && final == old(final).(vin := SignVin(old(final).vin, t))
      ensures against == old(against)[t := c] && SignVin(final.vin, t) == final.vin
    {
      EnterCoherent(o, nState, vecEntries, final, against, t, c);
      final := final.(vin := SignVin(final.vin, t));
      against := against[t := c];
    }

    /** The signature in the first entry that takes it. */
    method HandOut(t: TxIn) returns (ok: bool)
      requires Valid() && t in against && final.vin == SignVin(final.vin, t)
      modifies this`vecEntries
      ensures Valid() && Outline(vecEntries) == Outline(old(vecEntries))
      ensures ok == (Taker(old(vecEntries), t) < |old(vecEntries)|) && vecEntries == Handed(old(vecEntries), t)
    {
      var i := FindTaker(vecEntries, t);
      ok := i < |vecEntries|;
      if ok { SignAt(i, FirstAt(vecEntries[i].ins, PlaceOf(t)), t); }
    }

    method SignAt(i: nat, k: nat, t: TxIn)
      requires Valid() && i < |vecEntries| && t in against
      requires k == FirstAt(vecEntries[i].ins, PlaceOf(t)) < |vecEntries[i].ins| && !vecEntries[i].ins[k].fHasSig
      requires final.vin == SignVin(final.vin, t)
      modifies this`vecEntries
      ensures Valid() && Outline(vecEntries) == Outline(old(vecEntries))
      ensures SignEntry(old(vecEntries)[i], t) != old(vecEntries)[i]
      ensures vecEntries == old(vecEntries)[i := SignEntry(old(vecEntries)[i], t)]
    {
      ReplaceEntry(denoms, vecEntries, i, t);
      ghost var fs := vecEntries[i := SignEntry(vecEntries[i], t)];
      assert SignEntry(vecEntries[i], t).ins[k].fHasSig;
      SignCoherent(o, nState, vecEntries, fs, final, against, i, t);
      vecEntries := vecEntries[i := vecEntries[i].(ins := vecEntries[i].ins[k := DSIn(t, true)])];
    }

    /** Signatures come in; the first that is refused ends the message. What is committed then are
        the very entries handed in, signed. */
    method DsSign(txins: seq<TxIn>, accept: bool) returns (ok: bool)
      requires Valid()
      modifies this
      ensures Valid()
      ensures var (s, taken) := AddSigs(o, old(Signatures()), txins);
              var done := taken && old(nState) == Signing && AllSigned(s.entries);
              var merges := taken && old(nState) == AcceptingEntries && |s.entries| == max;
              && ok == taken && Outline(s.entries) == Outline(old(vecEntries))
              && nState == (if done then Idle else if merges then Signing else old(nState))
              && (!done && !merges ==> Signatures() == s)
              && (!done ==> nSessionDenom == old(nSessionDenom) && vecSessionCollaterals == old(vecSessionCollaterals))
              && (done ==> vecEntries == [] && vecSessionCollaterals == [])
              && (merges ==> vecEntries == s.entries && against == s.against)
              && (merges ==> multiset(final.vin) == multiset(JoinedIns(vecEntries)))
              && committed == old(committed) +
                   if done && accept then [Mixed(Tx(s.vin, old(final).vout), s.entries, s.against)] else []
    {
      assert committed == committed + [];
      ghost var s := Signatures();
      ghost var n;
      ok, n := AddAll(txins);
      if !ok {
        Refused(o, s, txins, n);
        return;
      }
      CheckPool(accept);
    }

    /** The loop over the signatures of a message; n of them are looked at. */
    method AddAll(txins: seq<TxIn>) returns (ok: bool, ghost n: nat)
      requires Valid()
      modifies this`final, this`vecEntries, this`against
      ensures Valid() && Outline(vecEntries) == Outline(old(vecEntries)) && final.vout == old(final).vout
      ensures n <= |txins| && (ok ==> txins[..n] == txins)
      ensures (Signatures(), ok) == AddSigs(o, old(Signatures()), txins[..n])
    {
      ghost var s := Signatures();
      for i := 0 to |txins|
        invariant Valid() && Outline(vecEntries) == Outline(old(vecEntries)) && final.vout == old(final).vout
        invariant (Signatures(), true) == AddSigs(o, s, txins[..i])
      {
        NextSig(o, s, txins, i, Signatures());
        ok := AddScriptSig(txins[i]);
        n := i + 1;
        if !ok { return; }
      }
      n := |txins|;
      ok := true;
    }

    method IsSignaturesComplete() returns (ok: bool)
      ensures ok == AllSigned(vecEntries)
    {
      for i := 0 to |vecEntries|
        invariant forall j, k :: 0 <= j < i && 0 <= k < |vecEntries[j].ins| ==> vecEntries[j].ins[k].fHasSig
      {
        for k := 0 to |vecEntries[i].ins|
          invariant forall j :: 0 <= j < k ==> vecEntries[i].ins[j].fHasSig
        {
          if !vecEntries[i].ins[k].fHasSig { return false; }
        }
      }
      ok := true;
    }

    /** Entries complete: merge them. All signed: commit. */
    method CheckPool(accept: bool)
      requires Valid()
      modifies this
      ensures Valid()
      ensures var commits := old(nState) == Signing && old(AllSigned(vecEntries)) && accept;
              committed == old(committed) + if commits then [Mixed(old(final), old(vecEntries), old(against))] else []
      ensures var merges := old(nState) == AcceptingEntries && |old(vecEntries)| == max;
              var done := old(nState) == Signing && old(AllSigned(vecEntries));
              && nState == (if merges then Signing else if done then Idle else old(nState))
              && vecEntries == (if done then [] else old(vecEntries))
              && (!done ==> against == old(against))
              && (!done ==> nSessionDenom == old(nSessionDenom) && vecSessionCollaterals == old(vecSessionCollaterals))
              && (done ==> vecSessionCollaterals == [])
              && (!done && !merges ==> final == old(final))
              && (merges ==> multiset(final.vin) == multiset(JoinedIns(vecEntries)))
    {
      assert committed == committed + [];
      if nState == AcceptingEntries && |vecEntries| >= max {
        CreateFinalTransaction();
        return;
      }
      if nState == Signing {
        var complete := IsSignaturesComplete();
        if complete { CommitFinalTransaction(accept); }
      }
    }

    /** The transaction is offered to the network; the session is over either way. */
    method CommitFinalTransaction(accept: bool)
      requires Valid() && nState == Signing && AllSigned(vecEntries)
      modifies this
      ensures Valid() && nState == Idle && vecEntries == [] && vecSessionCollaterals == []
      ensures committed == old(committed) + if accept then [Mixed(old(final), old(vecEntries), old(against))] else []
    {
      if !accept {
        SetNull();
        assert committed == old(committed) + [];
        return;
      }
      AllChecked(o, vecEntries, final.vin, against);
      committed := committed + [Mixed(final, vecEntries, against)];
      SetNull();
    }

    /** Nothing happened for too long. A safenode never enters the error state. */
    method CheckTimeout(timeout: bool)
      requires Valid()
      modifies this
      ensures Valid() && committed == old(committed)
      ensures nState == if timeout then Idle else old(nState)
      ensures timeout && old(nState) != Idle ==> vecEntries == [] && vecSessionCollaterals == [] && nSessionDenom == 0
      ensures !timeout || old(nState) == Idle ==> unchanged(this)
    {
      if nState != Idle && timeout { SetNull(); }
    }
  }

  method FindTaker(es: seq<Entry>, t: TxIn) returns (i: nat)
    ensures i == Taker(es, t)
  {
    i := 0;
    while i < |es|
      invariant i <= Taker(es, t)
    {
      var k := FirstAt(es[i].ins, PlaceOf(t));
      if k < |es[i].ins| && !es[i].ins[k].fHasSig {
        assert SignEntry(es[i], t).ins[k].fHasSig;
        return;
      }
      i := i + 1;
    }
  }

  /** The last input so far that spends the outpoint, and its script. */
  predicate Located(vin: seq<TxIn>, prevout: nat, index: int, script: nat) {
    index == LastAt(PlacesOf(vin), prevout) && script == ScriptAt(vin, index)
  }

  /** The inner loop of the signature check: the inputs of one entry. */
  method PushInputs(before: seq<TxIn>, ins: seq<DSIn>, prevout: nat, index: int, script: nat)
    returns (vin: seq<TxIn>, nTxInIndex: int, sigPubKey: nat)
    requires Located(before, prevout, index, script)
    ensures vin == before + TxIns(ins) && Located(vin, prevout, nTxInIndex, sigPubKey)
  {
    vin, nTxInIndex, sigPubKey := before, index, script;
    for k := 0 to |ins|
      invariant vin == before + TxIns(ins)[..k] && Located(vin, prevout, nTxInIndex, sigPubKey)
    {
      var txin := ins[k].txin;
      LastAtNext(vin, txin, prevout);
      if txin.prevout == prevout { nTxInIndex, sigPubKey := |vin|, txin.prevPubKey; }
      vin := vin + [txin];
    }
  }

  lemma JoinedNext(es: seq<Entry>, i: nat)
    requires i < |es|
    ensures JoinedIns(es[..i + 1]) == JoinedIns(es[..i]) + TxIns(es[i].ins)
    ensures JoinedOuts(Outline(es[..i + 1])) == JoinedOuts(Outline(es[..i])) + es[i].outs
  {
    var more := es[..i + 1];
    assert more[..i] == es[..i] && more[i] == es[i];
    assert Outline(more)[..i] == Outline(es[..i]) && Outline(more)[i] == ShapeOf(es[i]);
  }

  lemma LastAtNext(vin: seq<TxIn>, x: TxIn, prevout: nat)
    ensures LastAt(PlacesOf(vin + [x]), prevout) ==
            if x.prevout == prevout then |vin| else LastAt(PlacesOf(vin), prevout)
  {
    var ps := PlacesOf(vin + [x]);
    assert ps[|vin|] == PlaceOf(x) && ps[..|vin|] == PlacesOf(vin);
  }

  lemma TakeOut<T>(b: seq<T>, q: nat)
    requires q < |b|
    ensures multiset(b) == multiset(b[..q] + b[q + 1..]) + multiset{b[q]}
  {
    assert b == b[..q] + [b[q]] + b[q + 1..];
  }

  lemma Cancel<T>(m: multiset<T>, n: multiset<T>, x: T)
    requires m + multiset{x} == n + multiset{x}
    ensures m == n
  {
    assert m == (m + multiset{x}) - multiset{x};
    assert n == (n + multiset{x}) - multiset{x};
  }

  /** Sorting inputs only moves their places about. */
  lemma {:induction false} SamePlaces(a: seq<TxIn>, b: seq<TxIn>)
    requires multiset(a) == multiset(b)
    ensures multiset(PlacesOf(a)) == multiset(PlacesOf(b))
  {
    if a == [] {
      assert |multiset(b)| == |multiset(a)| == 0;
    } else {
      var n := |a| - 1;
      assert a[n] in multiset(b);
      var q :| 0 <= q < |b| && b[q] == a[n];
      TakeOut(a, n);
      TakeOut(b, q);
      assert a[..n] + a[n + 1..] == a[..n];
      Cancel(multiset(a[..n]), multiset(b[..q] + b[q + 1..]), a[n]);
      SamePlaces(a[..n], b[..q] + b[q + 1..]);
      TakeOut(PlacesOf(a), n);
      TakeOut(PlacesOf(b), q);
      assert PlacesOf(a)[..n] + PlacesOf(a)[n + 1..] == PlacesOf(a[..n]);
      assert PlacesOf(b)[..q] + PlacesOf(b)[q + 1..] == PlacesOf(b[..q] + b[q + 1..]);
    }
  }

  lemma EntryAdded(denoms: seq<int>, es: seq<Entry>, e: Entry, against: Record)
    requires NoneShared(es) && AllDistinct(es) && SameMask(denoms, es) && DistinctIns(e)
    requires forall k :: 0 <= k < |e.ins| ==> !e.ins[k].fHasSig
    requires Denominations(denoms, e.outs) != 0
    requires forall i :: 0 <= i < |es| ==> Denominations(denoms, es[i].outs) == Denominations(denoms, e.outs)
    requires forall j, i :: 0 <= j < |e.ins| && 0 <= i < |es| ==> !SpendsOutpoint(es[i], e.ins[j].txin.prevout)
    ensures NoneShared(es + [e]) && AllDistinct(es + [e]) && SameMask(denoms, es + [e]) &&
            Outline(es) <= Outline(es + [e])
    ensures EntriesRecorded(es, against) ==> EntriesRecorded(es + [e], against)
    ensures forall p, i :: 0 <= i < |es| && SpendsOutpoint(e, p) ==> !SpendsOutpoint(es[i], p)
  {
  }
}
