/** Votes on a governance object, and the tallies over them. */
module Governance {
  import opened Sets

  const MAX_SUPPORTED_VOTE_SIGNAL := 4
  const UPDATE_MIN := 60 * 60

  datatype Outcome = None | Yes | No | Abstain

  datatype Vote = Vote(vin: nat, signal: int, outcome: Outcome, nTime: int)

  datatype VoteInstance = VoteInstance(eOutcome: Outcome, nTime: int, nCreationTime: int)

  type VoteRec = map<int, VoteInstance>
  type VoteMap = map<int, VoteRec>

  /** What the rest of the node answers: the index of a safenode (negative when unknown), whether a
      vote is valid, whether it can be added to the safenode's own list, and the rate checks. */
  datatype Oracle = Oracle(index: nat -> int, valid: Vote -> bool, canAdd: Vote -> bool, rateChecks: bool)

  datatype Verdict = Accepted | Orphan | NoSignal | Unsupported | Obsolete | TooOften | Invalid | NotAdded

  const EMPTY_INSTANCE := VoteInstance(None, 0, 0)

  function RecOf(m: VoteMap, mn: int): VoteRec { if mn in m then m[mn] else map[] }

  function InstanceOf(r: VoteRec, signal: int): VoteInstance { if signal in r then r[signal] else EMPTY_INSTANCE }

  class CGovernanceObject {
    var mapCurrentMNVotes: VoteMap
    var fDirtyCache: bool
    var fileVotes: set<Vote>

    constructor ()
      ensures mapCurrentMNVotes == map[] && fileVotes == {} && fDirtyCache
    {
      mapCurrentMNVotes := map[];
      fileVotes := {};
      fDirtyCache := true;
    }

    /** An empty record, and an empty instance, are entered before the vote is looked at further;
        they stay when it is rejected. */
    method ProcessVote(vote: Vote, o: Oracle, nNow: int) returns (v: Verdict)
      modifies this
      ensures v == Judge(old(mapCurrentMNVotes), vote, o, nNow)
      ensures mapCurrentMNVotes == Recorded(old(mapCurrentMNVotes), vote, o, nNow)
      ensures v.Accepted? ==> fDirtyCache && fileVotes == old(fileVotes) + {vote}
      ensures !v.Accepted? ==> fDirtyCache == old(fDirtyCache) && fileVotes == old(fileVotes)
    {
      var nMNIndex := o.index(vote.vin);
      ghost var m, r := mapCurrentMNVotes, RecOf(mapCurrentMNVotes, nMNIndex);
      if nMNIndex < 0 { return Orphan; }
      if nMNIndex !in mapCurrentMNVotes {
        mapCurrentMNVotes := mapCurrentMNVotes[nMNIndex := map[]];
      }
      if vote.signal == 0 { return NoSignal; }
      if vote.signal > MAX_SUPPORTED_VOTE_SIGNAL { return Unsupported; }
      var recVote := mapCurrentMNVotes[nMNIndex];
      if vote.signal !in recVote {
        recVote := recVote[vote.signal := EMPTY_INSTANCE];
        mapCurrentMNVotes := mapCurrentMNVotes[nMNIndex := recVote];
        PutTwice(m, nMNIndex, r, recVote);
      }
      var voteInstance := recVote[vote.signal];
      if vote.nTime < voteInstance.nCreationTime { return Obsolete; }
      var nVoteTimeUpdate := voteInstance.nTime;
      if o.rateChecks {
        var nTimeDelta := nNow - voteInstance.nTime;
        if nTimeDelta < UPDATE_MIN {
          nVoteTimeUpdate := nNow;
          return TooOften;
        }
      }
      if !o.valid(vote) { return Invalid; }
      if !o.canAdd(vote) { return NotAdded; }
      voteInstance := VoteInstance(vote.outcome, nVoteTimeUpdate, vote.nTime);
      PutTwice(r, vote.signal, EMPTY_INSTANCE, voteInstance);
      PutTwice(m, nMNIndex, r, recVote[vote.signal := voteInstance]);
      PutTwice(m, nMNIndex, recVote, recVote[vote.signal := voteInstance]);
      mapCurrentMNVotes := mapCurrentMNVotes[nMNIndex := recVote[vote.signal := voteInstance]];
      if vote !in fileVotes { fileVotes := fileVotes + {vote}; }
      fDirtyCache := true;
      v := Accepted;
    }

    /** Votes one after the other, each under its own circumstances. */
    method ProcessVotes(es: seq<Event>)
      requires mapCurrentMNVotes == map[]
      modifies this
      ensures mapCurrentMNVotes == Processed(es)
    {
      for i := 0 to |es|
        invariant mapCurrentMNVotes == Processed(es[..i])
      {
        assert es[..i + 1][..i] == es[..i];
        var v := ProcessVote(es[i].vote, es[i].oracle, es[i].nNow);
      }
      assert es[..|es|] == es;
    }

    method CountMatchingVotes(signal: int, outcome: Outcome) returns (nCount: nat)
      ensures nCount == |Matching(mapCurrentMNVotes, signal, outcome)|
    {
      nCount := 0;
      var left := mapCurrentMNVotes.Keys;
      ghost var all := Matching(mapCurrentMNVotes, signal, outcome);
      while left != {}
        invariant left <= mapCurrentMNVotes.Keys && nCount == |all - left|
        decreases |left|
      {
        var mn := Pick(left);
        OneLess(all, left, mn);
        left := left - {mn};
        var recVote := mapCurrentMNVotes[mn];
        if signal in recVote && recVote[signal].eOutcome == outcome {
          nCount := nCount + 1;
        }
      }
      assert all - left == all;
    }

    method GetAbsoluteYesCount(signal: int) returns (n: int)
      ensures n == |Matching(mapCurrentMNVotes, signal, Yes)| - |Matching(mapCurrentMNVotes, signal, No)|
    {
      var yes := CountMatchingVotes(signal, Yes);
      var no := CountMatchingVotes(signal, No);
      n := (yes as int) - (no as int);
    }
  }

  lemma OneLess(all: set<int>, left: set<int>, mn: int)
    requires mn in left
    ensures |all - (left - {mn})| == |all - left| + if mn in all then 1 else 0
  {
    assert all - (left - {mn}) == if mn in all then (all - left) + {mn} else all - left;
  }

  lemma PutTwice<K, V>(m: map<K, V>, k: K, v: V, w: V)
    ensures m[k := v][k := w] == m[k := w]
  {
  }

  /** The safenodes whose current vote on a signal has the outcome. */
  function Matching(m: VoteMap, signal: int, outcome: Outcome): set<int> {
    set mn | mn in m && signal in m[mn] && m[mn][signal].eOutcome == outcome
  }

  function Judge(m: VoteMap, v: Vote, o: Oracle, nNow: int): Verdict {
    var i := InstanceOf(RecOf(m, o.index(v.vin)), v.signal);
    if o.index(v.vin) < 0 then Orphan
    else if v.signal == 0 then NoSignal
    else if v.signal > MAX_SUPPORTED_VOTE_SIGNAL then Unsupported
    else if v.nTime < i.nCreationTime then Obsolete
    else if o.rateChecks && nNow - i.nTime < UPDATE_MIN then TooOften
    else if !o.valid(v) then Invalid
    else if !o.canAdd(v) then NotAdded
    else Accepted
  }

  function Recorded(m: VoteMap, v: Vote, o: Oracle, nNow: int): VoteMap {
    var mn, j := o.index(v.vin), Judge(m, v, o, nNow);
    var r := RecOf(m, mn);
    var i := InstanceOf(r, v.signal);
    if j.Orphan? then m
    else if j.NoSignal? || j.Unsupported? then (if mn in m then m else m[mn := map[]])
    else if j.Accepted? then m[mn := r[v.signal := VoteInstance(v.outcome, i.nTime, v.nTime)]]
    else if mn in m && v.signal in m[mn] then m
    else m[mn := r[v.signal := i]]
  }

  // ---- what a vote changes ----

  /** The time of the vote held, 0 for none; and of its last change, as the rate check sees it. */
  function HeldTime(m: VoteMap, mn: int, s: int): int { if mn in m && s in m[mn] then m[mn][s].nCreationTime else 0 }

  function ChangeTime(m: VoteMap, mn: int, s: int): int { if mn in m && s in m[mn] then m[mn][s].nTime else 0 }

  /** Whether a vote comes as far as to have an instance entered for it. */
  predicate Supported(v: Vote, o: Oracle) { o.index(v.vin) >= 0 && v.signal != 0 && v.signal <= 4 }

  /** Whether it is then neither obsolete nor too soon. */
  predicate Timely(m: VoteMap, v: Vote, o: Oracle, nNow: int) {
    && HeldTime(m, o.index(v.vin), v.signal) <= v.nTime
    && (o.rateChecks ==> 3600 <= nNow - ChangeTime(m, o.index(v.vin), v.signal))
  }

  /** Each verdict, and the whole of what it takes. */
  lemma VerdictIs(m: VoteMap, v: Vote, o: Oracle, nNow: int)
    ensures var j := Judge(m, v, o, nNow);
            && (j == Orphan <==> o.index(v.vin) < 0)
            && (j == NoSignal <==> o.index(v.vin) >= 0 && v.signal == 0)
            && (j == Unsupported <==> o.index(v.vin) >= 0 && v.signal > 4)
            && (j == Obsolete <==> Supported(v, o) && v.nTime < HeldTime(m, o.index(v.vin), v.signal))
            && (j == Invalid <==> Supported(v, o) && Timely(m, v, o, nNow) && !o.valid(v))
            && (j == NotAdded <==> Supported(v, o) && Timely(m, v, o, nNow) && o.valid(v) && !o.canAdd(v))
            && (j == Accepted <==> Supported(v, o) && Timely(m, v, o, nNow) && o.valid(v) && o.canAdd(v))
  {
  }

  /** The tallies after a vote.  One that is accepted decides for its safenode and signal; no other changes a
      count, but that of safenodes without an outcome, which takes the empty instance entered for it. */
  lemma VoteMoves(m: VoteMap, v: Vote, o: Oracle, nNow: int, signal: int, outcome: Outcome, mn: int)
    ensures mn in Matching(Recorded(m, v, o, nNow), signal, outcome) <==>
              if mn == o.index(v.vin) && signal == v.signal && Supported(v, o) then
                if Timely(m, v, o, nNow) && o.valid(v) && o.canAdd(v) then outcome == v.outcome
                else mn in Matching(m, signal, outcome) || (outcome == None && !(mn in m && signal in m[mn]))
              else mn in Matching(m, signal, outcome)
  {
    VerdictIs(m, v, o, nNow);
  }

  /** So a vote that is not valid, or cannot be added, is not accepted and counts for nothing. */
  lemma {:induction false} InvalidCountsForNothing(m: VoteMap, v: Vote, o: Oracle, nNow: int, signal: int,
                                                   outcome: Outcome)
    requires !o.valid(v) || !o.canAdd(v)
    ensures Judge(m, v, o, nNow) != Accepted
    ensures outcome != None ==> Matching(Recorded(m, v, o, nNow), signal, outcome) == Matching(m, signal, outcome)
  {
    VerdictIs(m, v, o, nNow);
    if outcome != None {
      forall mn
        ensures mn in Matching(Recorded(m, v, o, nNow), signal, outcome) <==> mn in Matching(m, signal, outcome)
      {
        VoteMoves(m, v, o, nNow, signal, outcome, mn);
      }
    }
  }

  // ---- the rate check ----

  /** The time that the rate check looks at is never set. */
  ghost predicate NeverTimed(m: VoteMap) {
    forall mn: int, s: int :: mn in m && s in m[mn] ==> m[mn][s].nTime == 0
  }

  /** So it rejects a vote only while the clock is in the first hour of 1970, however often a
      safenode votes. */
  lemma RateCheckIdle(m: VoteMap, v: Vote, o: Oracle, nNow: int)
    requires NeverTimed(m)
    ensures NeverTimed(Recorded(m, v, o, nNow))
    ensures Judge(m, v, o, nNow) == TooOften <==>
            o.rateChecks && nNow < UPDATE_MIN && 0 <= o.index(v.vin) && v.signal != 0 &&
            v.signal <= MAX_SUPPORTED_VOTE_SIGNAL &&
              v.nTime >= InstanceOf(RecOf(m, o.index(v.vin)), v.signal).nCreationTime
  {
    var n: VoteMap := Recorded(m, v, o, nNow);
    forall mn: int, s: int | mn in n && s in n[mn]
      ensures n[mn][s].nTime == 0
    {
      if mn in m && s in m[mn] { assert m[mn][s].nTime == 0; }
      var i := InstanceOf(RecOf(m, o.index(v.vin)), v.signal);
    }
  }

  datatype Event = Event(vote: Vote, oracle: Oracle, nNow: int)

  /** The record after any votes, each judged under its own circumstances. */
  function Processed(es: seq<Event>): VoteMap {
    if es == [] then map[]
    else var e := es[|es| - 1]; Recorded(Processed(es[..|es| - 1]), e.vote, e.oracle, e.nNow)
  }

  /** Whatever votes arrive, each under its own circumstances: an instance held is empty, or of one of them that
      was valid and could be added. */
  lemma {:induction false} HeldWasBrought(es: seq<Event>, mn: int, s: int) returns (j: nat)
    requires mn in Processed(es) && s in Processed(es)[mn] && Processed(es)[mn][s] != EMPTY_INSTANCE
    ensures j < |es| && es[j].oracle.index(es[j].vote.vin) == mn && es[j].vote.signal == s
    ensures es[j].oracle.valid(es[j].vote) && es[j].oracle.canAdd(es[j].vote)
    ensures Processed(es)[mn][s].eOutcome == es[j].vote.outcome
    ensures Processed(es)[mn][s].nCreationTime == es[j].vote.nTime
  {
    assert es != [];
    var last := |es| - 1;
    var before, e := Processed(es[..last]), es[last];
    VerdictIs(before, e.vote, e.oracle, e.nNow);
    if mn in before && s in before[mn] && before[mn][s] == Processed(es)[mn][s] {
      j := HeldWasBrought(es[..last], mn, s);
    } else {
      j := last;
    }
  }

  lemma {:induction false} RateCheckNeverFires(es: seq<Event>, e: Event)
    requires e.nNow >= UPDATE_MIN
    ensures NeverTimed(Processed(es)) && Judge(Processed(es), e.vote, e.oracle, e.nNow) != TooOften
  {
    if es != [] {
      var last := es[|es| - 1];
      RateCheckNeverFires(es[..|es| - 1], e);
      RateCheckIdle(Processed(es[..|es| - 1]), last.vote, last.oracle, last.nNow);
    }
    RateCheckIdle(Processed(es), e.vote, e.oracle, e.nNow);
  }

  // ---- the order of votes ----

  /** A vote that nothing but a later vote can reject. */
  predicate Countable(v: Vote, o: Oracle) {
    o.index(v.vin) >= 0 && v.signal != 0 && v.signal <= MAX_SUPPORTED_VOTE_SIGNAL && v.nTime >= 0 && o.valid(v) &&
      o.canAdd(v)
  }

  function Tallied(vs: seq<Vote>, o: Oracle, nNow: int): VoteMap {
    if vs == [] then map[] else Recorded(Tallied(vs[..|vs| - 1], o, nNow), vs[|vs| - 1], o, nNow)
  }

  predicate Counts(v: Vote, mn: int, signal: int, o: Oracle) { o.index(v.vin) == mn && v.signal == signal }

  /** Votes of one safenode on one signal at one time agree. */
  ghost predicate TimesDecide(vs: seq<Vote>, o: Oracle) {
    forall v, w {:trigger Agree(v, w, o)} :: v in vs && w in vs ==> Agree(v, w, o)
  }

  predicate Agree(v: Vote, w: Vote, o: Oracle) {
    o.index(v.vin) == o.index(w.vin) && v.signal == w.signal && v.nTime == w.nTime ==> v.outcome == w.outcome
  }

  /** The vote of a safenode on a signal that no other of its votes on it is later than. */
  ghost predicate IsLatest(v: Vote, vs: seq<Vote>, mn: int, signal: int, o: Oracle) {
    v in vs && Counts(v, mn, signal, o) && forall w :: w in vs && Counts(w, mn, signal, o) ==> w.nTime <= v.nTime
  }

  /** The instance held is that of a latest vote. */
  ghost predicate LatestAt(m: VoteMap, vs: seq<Vote>, o: Oracle, mn: int, s: int)
    requires mn in m && s in m[mn]
  {
    m[mn][s].nTime == 0 && exists v :: IsLatest(v, vs, mn, s, o) && m[mn][s] == VoteInstance(v.outcome, 0, v.nTime)
  }

  predicate Entered(m: VoteMap, v: Vote, o: Oracle) { o.index(v.vin) in m && v.signal in m[o.index(v.vin)] }

  ghost predicate Voted(vs: seq<Vote>, o: Oracle, mn: int) { exists v :: v in vs && o.index(v.vin) == mn }

  /** Exactly the safenodes that voted have records, and each record holds latest votes. */
  ghost predicate HoldsLatest(m: VoteMap, vs: seq<Vote>, o: Oracle) {
    && (forall v {:trigger Entered(m, v, o)} :: v in vs ==> Entered(m, v, o))
    && (forall mn {:trigger Voted(vs, o, mn)} :: mn in m ==> Voted(vs, o, mn))
    && (forall mn: int, s: int {:trigger LatestAt(m, vs, o, mn, s)} :: mn in m && s in m[mn] ==>
        LatestAt(m, vs, o, mn, s))
  }

  lemma {:induction false} TalliedIsLatest(vs: seq<Vote>, o: Oracle, nNow: int)
    requires (forall v :: v in vs ==> Countable(v, o)) && (o.rateChecks ==> nNow >= UPDATE_MIN)
    ensures HoldsLatest(Tallied(vs, o, nNow), vs, o)
  {
    if vs != [] {
      var n := |vs| - 1;
      TalliedIsLatest(vs[..n], o, nNow);
      OneMoreVote(Tallied(vs[..n], o, nNow), vs[..n], vs[n], o, nNow);
      assert vs == vs[..n] + [vs[n]];
    }
  }

  lemma OneMoreVote(m: VoteMap, vs: seq<Vote>, v: Vote, o: Oracle, nNow: int)
    requires HoldsLatest(m, vs, o) && Countable(v, o) && (o.rateChecks ==> nNow >= UPDATE_MIN)
    ensures HoldsLatest(Recorded(m, v, o, nNow), vs + [v], o)
  {
    var n: VoteMap, all := Recorded(m, v, o, nNow), vs + [v];
    forall w | w in all
      ensures Entered(n, w, o)
    {
      StillEntered(m, v, w, o, nNow) by { assert w == v || Entered(m, w, o); }
    }
    forall mn | mn in n
      ensures Voted(all, o, mn)
    {
      NowVoted(m, vs, v, o, nNow, mn);
    }
    forall mn: int, s: int | mn in n && s in n[mn]
      ensures LatestAt(n, all, o, mn, s)
    {
      var w := NowLatest(m, vs, v, o, nNow, mn, s);
    }
  }

  lemma StillEntered(m: VoteMap, v: Vote, w: Vote, o: Oracle, nNow: int)
    requires w == v || Entered(m, w, o)
    requires Countable(v, o)
    ensures Entered(Recorded(m, v, o, nNow), w, o)
  {
  }

  lemma NowVoted(m: VoteMap, vs: seq<Vote>, v: Vote, o: Oracle, nNow: int, mn: int)
    requires HoldsLatest(m, vs, o) && mn in Recorded(m, v, o, nNow)
    ensures Voted(vs + [v], o, mn)
  {
    if mn == o.index(v.vin) {
      assert v in vs + [v];
    } else {
      assert mn in m && Voted(vs, o, mn);
      var w :| w in vs && o.index(w.vin) == mn;
      assert w in vs + [v];
    }
  }

  lemma NowLatest(m: VoteMap, vs: seq<Vote>, v: Vote, o: Oracle, nNow: int, mn: int, s: int) returns (w: Vote)
    requires HoldsLatest(m, vs, o) && Countable(v, o) && (o.rateChecks ==> nNow >= UPDATE_MIN)
    requires var n := Recorded(m, v, o, nNow); mn in n && s in n[mn]
    ensures IsLatest(w, vs + [v], mn, s, o)
    ensures Recorded(m, v, o, nNow)[mn][s] == VoteInstance(w.outcome, 0, w.nTime)
  {
    if mn in m && s in m[mn] {
      assert LatestAt(m, vs, o, mn, s);
      w :| IsLatest(w, vs, mn, s, o) && m[mn][s] == VoteInstance(w.outcome, 0, w.nTime);
      if Counts(v, mn, s, o) && v.nTime >= w.nTime { w := v; }
    } else {
      FirstLatest(m, vs, v, o, mn, s);
      w := v;
    }
  }

  lemma FirstLatest(m: VoteMap, vs: seq<Vote>, v: Vote, o: Oracle, mn: int, s: int)
    requires HoldsLatest(m, vs, o) && Counts(v, mn, s, o) && !(mn in m && s in m[mn])
    ensures IsLatest(v, vs + [v], mn, s, o)
  {
    forall w | w in vs + [v] && Counts(w, mn, s, o)
      ensures w == v
    {
      if w in vs { assert Entered(m, w, o); }
    }
  }

  lemma SameVotesSameMap(m: VoteMap, n: VoteMap, vs: seq<Vote>, ws: seq<Vote>, o: Oracle)
    requires HoldsLatest(m, vs, o) && HoldsLatest(n, ws, o) && TimesDecide(vs, o)
    requires forall v :: v in vs <==> v in ws
    ensures m == n
  {
    forall mn
      ensures mn in m <==> mn in n
      ensures mn in m ==> m[mn] == n[mn]
    {
      if mn in m { SameRec(m, n, vs, ws, o, mn); }
      if mn in n { HasRec(n, m, ws, vs, o, mn); }
    }
  }

  lemma HasRec(m: VoteMap, n: VoteMap, vs: seq<Vote>, ws: seq<Vote>, o: Oracle, mn: int)
    requires HoldsLatest(m, vs, o) && HoldsLatest(n, ws, o) && mn in m
    requires forall v :: v in vs <==> v in ws
    ensures mn in n
  {
    assert Voted(vs, o, mn);
    var v :| v in vs && o.index(v.vin) == mn;
    assert Entered(n, v, o);
  }

  lemma SameRec(m: VoteMap, n: VoteMap, vs: seq<Vote>, ws: seq<Vote>, o: Oracle, mn: int)
    requires HoldsLatest(m, vs, o) && HoldsLatest(n, ws, o) && TimesDecide(vs, o) && mn in m
    requires forall v :: v in vs <==> v in ws
    ensures mn in n && m[mn] == n[mn]
  {
    HasRec(m, n, vs, ws, o, mn);
    forall s
      ensures s in m[mn] <==> s in n[mn]
      ensures s in m[mn] ==> m[mn][s] == n[mn][s]
    {
      if s in m[mn] { HasInstance(m, n, vs, ws, o, mn, s); }
      if s in n[mn] { HasInstance(n, m, ws, vs, o, mn, s); }
      if s in m[mn] && s in n[mn] { SameInstance(m, n, vs, ws, o, mn, s); }
    }
  }

  lemma HasInstance(m: VoteMap, n: VoteMap, vs: seq<Vote>, ws: seq<Vote>, o: Oracle, mn: int, s: int)
    requires HoldsLatest(m, vs, o) && HoldsLatest(n, ws, o) && mn in m && s in m[mn]
    requires forall v :: v in vs <==> v in ws
    ensures mn in n && s in n[mn]
  {
    assert LatestAt(m, vs, o, mn, s);
    var v :| IsLatest(v, vs, mn, s, o);
    assert Entered(n, v, o);
  }

  lemma SameInstance(m: VoteMap, n: VoteMap, vs: seq<Vote>, ws: seq<Vote>, o: Oracle, mn: int, s: int)
    requires HoldsLatest(m, vs, o) && HoldsLatest(n, ws, o) && TimesDecide(vs, o)
    requires forall v :: v in vs <==> v in ws
    requires mn in m && mn in n && s in m[mn] && s in n[mn]
    ensures m[mn][s] == n[mn][s]
  {
    assert LatestAt(m, vs, o, mn, s) && LatestAt(n, ws, o, mn, s);
    var v :| IsLatest(v, vs, mn, s, o) && m[mn][s] == VoteInstance(v.outcome, 0, v.nTime);
    var w :| IsLatest(w, ws, mn, s, o) && n[mn][s] == VoteInstance(w.outcome, 0, w.nTime);
    assert v in ws && w in vs && Agree(v, w, o);
  }

  /** In whatever order, and however often, the same votes arrive, the record is the same, and with
      it every tally: the safenodes counted are those whose latest vote has the outcome. */
  lemma OrderIndependent(vs: seq<Vote>, ws: seq<Vote>, o: Oracle, nNow: int, signal: int, outcome: Outcome)
    requires forall v :: v in vs ==> Countable(v, o)
    requires (o.rateChecks ==> nNow >= UPDATE_MIN) && TimesDecide(vs, o) && forall v :: v in vs <==> v in ws
    ensures Tallied(vs, o, nNow) == Tallied(ws, o, nNow)
    ensures forall mn :: mn in Matching(Tallied(vs, o, nNow), signal, outcome) <==>
                         exists v :: IsLatest(v, vs, mn, signal, o) && v.outcome == outcome
  {
    TalliedIsLatest(vs, o, nNow);
    TalliedIsLatest(ws, o, nNow);
    SameVotesSameMap(Tallied(vs, o, nNow), Tallied(ws, o, nNow), vs, ws, o);
    forall mn
      ensures mn in Matching(Tallied(vs, o, nNow), signal, outcome) <==>
              exists v :: IsLatest(v, vs, mn, signal, o) && v.outcome == outcome
    {
      MatchesLatest(Tallied(vs, o, nNow), vs, o, mn, signal, outcome);
    }
  }

  lemma MatchesLatest(m: VoteMap, vs: seq<Vote>, o: Oracle, mn: int, signal: int, outcome: Outcome)
    requires HoldsLatest(m, vs, o) && TimesDecide(vs, o)
    ensures mn in Matching(m, signal, outcome) <==> exists v :: IsLatest(v, vs, mn, signal, o) && v.outcome == outcome
  {
    if mn in m && signal in m[mn] {
      assert LatestAt(m, vs, o, mn, signal);
      var v :| IsLatest(v, vs, mn, signal, o) && m[mn][signal] == VoteInstance(v.outcome, 0, v.nTime);
      forall w | IsLatest(w, vs, mn, signal, o)
        ensures w.outcome == v.outcome
      {
        assert Agree(v, w, o);
      }
    }
    forall w | IsLatest(w, vs, mn, signal, o)
      ensures mn in m && signal in m[mn]
    {
      assert Entered(m, w, o);
    }
  }

  /** Two votes at the same time that disagree: the one processed last counts. */
  lemma TiesGoToTheLast(v: Vote, w: Vote, o: Oracle, nNow: int)
    requires Countable(v, o) && Countable(w, o) && (o.rateChecks ==> nNow >= UPDATE_MIN)
    requires v.vin == w.vin && v.signal == w.signal && v.nTime == w.nTime
    ensures Tallied([v, w], o, nNow) == Tallied([w, v], o, nNow) <==> v.outcome == w.outcome
  {
    assert [v, w][..1] == [v] && [w, v][..1] == [w] && [v][..0] == [] && [w][..0] == [];
    var mn := o.index(v.vin);
    var a := VoteInstance(v.outcome, 0, v.nTime);
    var b := VoteInstance(w.outcome, 0, w.nTime);
    assert Tallied([v], o, nNow) == map[mn := map[v.signal := a]];
    assert Tallied([w], o, nNow) == map[mn := map[v.signal := b]];
    assert Tallied([v, w], o, nNow)[mn][v.signal] == b && Tallied([w, v], o, nNow)[mn][v.signal] == a;
    if v.outcome == w.outcome { assert v == w; }
  }
}
