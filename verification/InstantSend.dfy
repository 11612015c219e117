/** The InstantSend manager as the object the node updates in place; InstantSendSteps.dfy says what its
    steps are, and proves what follows from them. */
module InstantSend {
  import opened InstantSendSpec
  import opened InstantSendSteps
  import opened Sets

  // ---------------------------------------------------------------- the object

  class CInstantSend {
    const rank: Ranking
    var mapLockRequestAccepted: map<nat, Request>
    var mapLockRequestRejected: map<nat, Request>
    var mapTxLockVotes: set<Vote>
    var mapTxLockVotesOrphan: set<Vote>
    var mapTxLockCandidates: Candidates
    var mapVotedOutpoints: map<OutPoint, set<nat>>
    var mapLockedOutpoints: map<OutPoint, nat>

    ghost predicate Valid()
      reads this
    {
      Inv(rank, mapTxLockCandidates, mapVotedOutpoints, mapLockedOutpoints)
    }

    ghost function Abs(): Held
      reads this
    {
      Held(mapLockRequestAccepted, mapLockRequestRejected, mapTxLockVotes, mapTxLockVotesOrphan,
           mapTxLockCandidates, mapVotedOutpoints, mapLockedOutpoints)
    }

    constructor (rank: Ranking)
      ensures Valid() && this.rank == rank
      ensures Abs() == Held(map[], map[], {}, {}, map[], map[], map[])
    {
      this.rank := rank;
      mapLockRequestAccepted, mapLockRequestRejected := map[], map[];
      mapTxLockVotes, mapTxLockVotesOrphan := {}, {};
      mapTxLockCandidates, mapVotedOutpoints, mapLockedOutpoints := map[], map[], map[];
    }

    method AcceptLockRequest(req: Request)
      modifies this`mapLockRequestAccepted
      ensures Valid() == old(Valid())
      ensures mapLockRequestAccepted == if req.txid in old(mapLockRequestAccepted) then old(mapLockRequestAccepted)
                                        else old(mapLockRequestAccepted)[req.txid := req]
    {
      if req.txid !in mapLockRequestAccepted {
        mapLockRequestAccepted := mapLockRequestAccepted[req.txid := req];
      }
    }

    method RejectLockRequest(req: Request)
      modifies this`mapLockRequestRejected
      ensures Valid() == old(Valid())
      ensures mapLockRequestRejected == if req.txid in old(mapLockRequestRejected) then old(mapLockRequestRejected)
                                        else old(mapLockRequestRejected)[req.txid := req]
    {
      if req.txid !in mapLockRequestRejected {
        mapLockRequestRejected := mapLockRequestRejected[req.txid := req];
      }
    }

    /** CTxLockCandidate::AddVote on the candidate the vote is for. */
    method AddVote(v: Vote) returns (added: bool)
      requires v.txHash in mapTxLockCandidates
      modifies this`mapTxLockCandidates
      ensures added == (HasOutPoint(old(mapTxLockCandidates), v.txHash, v.outpoint)
                        && !HasVoted(old(mapTxLockCandidates), v.txHash, v.outpoint, v.safenode))
      ensures mapTxLockCandidates == if added then WithVote(old(mapTxLockCandidates), v) else old(mapTxLockCandidates)
    {
      var c := mapTxLockCandidates[v.txHash];
      if v.outpoint !in c.locks {
        return false;
      }
      var l := c.locks[v.outpoint];
      if v.safenode in l {
        return false;
      }
      l := l[v.safenode := v];
      c := c.(locks := c.locks[v.outpoint := l]);
      mapTxLockCandidates := mapTxLockCandidates[v.txHash := c];
      added := true;
    }

    /** Whether some candidate named in mapVotedOutpoints for `o`, other than `except`,
        already holds the vote of `m` on it. */
    method FindVote(o: OutPoint, m: OutPoint, except: set<nat>) returns (found: bool)
      requires NamesCandidates(mapTxLockCandidates, mapVotedOutpoints)
      ensures found == Marked(mapTxLockCandidates, mapVotedOutpoints, o, m, except)
      ensures Covered(mapTxLockCandidates, mapVotedOutpoints) ==>
                (found <==> exists h :: h !in except && HasVoted(mapTxLockCandidates, h, o, m))
    {
      if o !in mapVotedOutpoints {
        return false;
      }
      var rest := mapVotedOutpoints[o];
      while rest != {}
        invariant rest <= mapVotedOutpoints[o]
        invariant forall h :: h in mapVotedOutpoints[o] && h !in except && HasVoted(mapTxLockCandidates, h, o, m) ==>
                  h in rest
        decreases |rest|
      {
        var h :| h in rest;
        if h !in except && o in mapTxLockCandidates[h].locks && m in mapTxLockCandidates[h].locks[o] {
          assert HasVoted(mapTxLockCandidates, h, o, m);
          return true;
        }
        rest := rest - {h};
      }
      found := false;
    }

    method IsAllOutPointsReady(h: nat) returns (ready: bool)
      requires h in mapTxLockCandidates
      ensures ready == AllReady(mapTxLockCandidates[h])
    {
      var locks := mapTxLockCandidates[h].locks;
      if locks == map[] {
        return false;
      }
      var rest := locks.Keys;
      while rest != {}
        invariant rest <= locks.Keys && forall o :: o in locks && o !in rest ==> IsReady(locks[o])
        decreases |rest|
      {
        var o :| o in rest;
        if |locks[o]| < SIGNATURES_REQUIRED {
          return false;
        }
        rest := rest - {o};
      }
      ready := true;
    }

    ghost predicate IsLocked(h: nat)
      reads this
    {
      LockedFor(mapTxLockCandidates, mapLockedOutpoints, h)
    }

    method IsLockedInstantSendTransaction(h: nat, active: bool) returns (locked: bool)
      ensures locked == (active && IsLocked(h))
      ensures locked <==> active && h in mapTxLockCandidates && mapTxLockCandidates[h].locks != map[] &&
                          forall o :: o in mapTxLockCandidates[h].locks ==>
                            o in mapLockedOutpoints && mapLockedOutpoints[o] == h
    {
      if !active {
        return false;
      }
      if h !in mapTxLockCandidates || mapTxLockCandidates[h].locks == map[] {
        return false;
      }
      var locks := mapTxLockCandidates[h].locks;
      var rest := locks.Keys;
      while rest != {}
        invariant rest <= locks.Keys
        invariant forall o :: o in locks && o !in rest ==> o in mapLockedOutpoints && mapLockedOutpoints[o] == h
        decreases |rest|
      {
        var o :| o in rest;
        if o !in mapLockedOutpoints || mapLockedOutpoints[o] != h {
          return false;
        }
        rest := rest - {o};
      }
      locked := true;
    }

    /** The part of ResolveConflicts that reads this object; the rest is an oracle. */
    method ResolveConflicts(h: nat, orc: Oracle) returns (ok: bool)
      requires h in mapTxLockCandidates
      ensures ok == (!AllReady(mapTxLockCandidates[h])
                     || (orc.resolves(h) &&
                         forall o :: o in mapTxLockCandidates[h].request.vin && o in mapLockedOutpoints ==>
                           mapLockedOutpoints[o] == h))
      ensures IsRanking(rank) && Valid() ==> ok == (AllReady(mapTxLockCandidates[h]) ==> orc.resolves(h))
    {
      if IsRanking(rank) && Valid() && AllReady(mapTxLockCandidates[h]) {
        CompletedLocks(rank, mapTxLockCandidates, mapVotedOutpoints, mapLockedOutpoints, h, orc);
      }
      var ready := IsAllOutPointsReady(h);
      if !ready {
        return true;
      }
      var vin := mapTxLockCandidates[h].request.vin;
      for i := 0 to |vin|
        invariant forall k :: 0 <= k < i ==> vin[k] in mapLockedOutpoints ==> mapLockedOutpoints[vin[k]] == h
      {
        if vin[i] in mapLockedOutpoints && mapLockedOutpoints[vin[i]] != h {
          return false;
        }
      }
      ok := orc.resolves(h);
    }

    /** Locks every outpoint of a ready candidate that is not locked yet; no lock is reassigned. */
    method LockTransactionInputs(h: nat)
      requires h in mapTxLockCandidates
      modifies this`mapLockedOutpoints
      ensures mapLockedOutpoints ==
              if AllReady(mapTxLockCandidates[h])
              then LocksOn(mapTxLockCandidates[h].locks.Keys, h) + old(mapLockedOutpoints)
              else old(mapLockedOutpoints)
    {
      var ready := IsAllOutPointsReady(h);
      if !ready {
        return;
      }
      var locks := mapTxLockCandidates[h].locks;
      var rest := locks.Keys;
      while rest != {}
        invariant rest <= locks.Keys
        invariant mapLockedOutpoints == LocksOn(locks.Keys - rest, h) + old(mapLockedOutpoints)
        decreases |rest|
      {
        var o :| o in rest;
        if o !in mapLockedOutpoints {
          mapLockedOutpoints := mapLockedOutpoints[o := h];
        }
        rest := rest - {o};
      }
    }

    /** Completes the lock of a candidate once it is ready: in a consistent state a ready
        candidate finds no conflicting lock, and ends up holding the lock of every outpoint. */
    method TryToFinalizeLockCandidate(h: nat, orc: Oracle)
      requires IsRanking(rank) && Valid() && h in mapTxLockCandidates
      modifies this`mapLockedOutpoints
      ensures Valid() && mapLockedOutpoints == Completed(mapTxLockCandidates, old(mapLockedOutpoints), h, orc)
    {
      ghost var cands, locks := mapTxLockCandidates, mapLockedOutpoints;
      var ready := IsAllOutPointsReady(h);
      var locked := IsLockedInstantSendTransaction(h, orc.active);
      if locked { CompletedElse(cands, locks, h, h, orc); }
      if ready && !locked {
        var ok := ResolveConflicts(h, orc);
        if ok {
          LockTransactionInputs(h);
        }
      }
      assert mapLockedOutpoints == Completed(cands, locks, h, orc);
      CompletedKeeps(rank, mapTxLockCandidates, mapVotedOutpoints, locks, h, orc, mapLockedOutpoints);
    }

    /** No candidate for this hash yet: make one, with no votes. */
    method CreateTxLockCandidate(req: Request, orc: Oracle) returns (ok: bool)
      requires Valid()
      modifies this`mapTxLockCandidates
      ensures Valid() && ok == orc.requestValid(req, !AllEnough(mapTxLockVotesOrphan, req))
      ensures Abs() == if ok then WithCandidate(old(Abs()), req) else old(Abs())
    {
      var enough := IsEnoughOrphanVotesForTx(req);
      if !orc.requestValid(req, !enough) {
        return false;
      }
      ok := true;
      if req.txid !in mapTxLockCandidates {
        var locks := AddOutPointLocks(req.vin);
        var c := Candidate(req, locks);
        CreateKeeps(rank, mapTxLockCandidates, mapVotedOutpoints, mapLockedOutpoints, c);
        mapTxLockCandidates := mapTxLockCandidates[req.txid := c];
      }
    }

    /** Its loop, from the last input to the first. */
    method AddOutPointLocks(vin: seq<OutPoint>) returns (locks: map<OutPoint, Lock>)
      ensures locks == NoVotes(vin)
    {
      locks := map[];
      for i := |vin| downto 0
        invariant locks == NoVotes(vin[i..])
      {
        NoVotesNext(vin, i, locks);
        if vin[i] !in locks {
          locks := locks[vin[i] := map[]];
        }
      }
      assert vin[0..] == vin;
    }

    method IsEnoughOrphanVotesForTx(req: Request) returns (enough: bool)
      ensures enough == AllEnough(mapTxLockVotesOrphan, req)
    {
      for i := 0 to |req.vin|
        invariant forall k :: 0 <= k < i ==> EnoughOrphans(mapTxLockVotesOrphan, req.txid, req.vin[k])
      {
        var e := IsEnoughOrphanVotesForTxAndOutPoint(req.txid, req.vin[i]);
        if !e {
          assert req.vin[i] in req.vin;
          return false;
        }
      }
      enough := true;
    }

    method IsEnoughOrphanVotesForTxAndOutPoint(h: nat, o: OutPoint) returns (enough: bool)
      ensures enough == EnoughOrphans(mapTxLockVotesOrphan, h, o)
      ensures enough <==> |set v | v in mapTxLockVotesOrphan && v.txHash == h && v.outpoint == o| >= 6
    {
      var nCountVotes := 0;
      var rest := mapTxLockVotesOrphan;
      ghost var counted: set<Vote> := {};
      while rest != {}
        invariant rest <= mapTxLockVotesOrphan && nCountVotes == |counted| < SIGNATURES_REQUIRED
        invariant counted == set v | v in mapTxLockVotesOrphan && v !in rest && v.txHash == h && v.outpoint == o
        decreases |rest|
      {
        var v :| v in rest;
        if v.txHash == h && v.outpoint == o {
          nCountVotes := nCountVotes + 1;
          counted := counted + {v};
          if nCountVotes >= SIGNATURES_REQUIRED {
            SubsetSize(counted, OrphansFor(mapTxLockVotesOrphan, h, o));
            return true;
          }
        }
        rest := rest - {v};
      }
      assert counted == OrphansFor(mapTxLockVotesOrphan, h, o);
      enough := false;
    }

    /** A vote from the network.  For a known candidate it is counted exactly when it is
        valid, its outpoint is one of the candidate's, and the safenode has not voted on that
        outpoint before, for this candidate or any other. */
    method ProcessTxLockVote(v: Vote, orc: Oracle) returns (ok: bool)
      requires IsRanking(rank) && Valid()
      modifies this
      ensures Valid() && Processed(rank, old(Abs()), Abs(), v, orc, ok)
      decreases if v in mapTxLockVotesOrphan then 0 else 3
    {
      if !VoteIsValid(rank, v, orc) {
        return false;
      }
      if v.txHash !in mapTxLockCandidates {
        if v !in mapTxLockVotesOrphan {
          var enough := KeepOrphan(v, orc);
          if enough { return true; }
        }
        return orc.notSpamming(v);
      }
      ok := CountAndFinalize(v, orc);
    }

    /** The last part of ProcessTxLockVote. */
    method CountAndFinalize(v: Vote, orc: Oracle) returns (ok: bool)
      requires IsRanking(rank) && Valid() && v.txHash in mapTxLockCandidates && VoteIsValid(rank, v, orc)
      modifies this`mapTxLockCandidates, this`mapVotedOutpoints, this`mapLockedOutpoints
      ensures Valid() && Counted(rank, old(Abs()), Abs(), v, orc, ok)
    {
      ghost var s := Abs();
      ok := CountVote(v);
      ghost var t1 := Abs();
      if ok {
        TryToFinalizeLockCandidate(v.txHash, orc);
      }
      CountedIs(rank, s, t1, Abs(), v, orc, ok);
    }

    /** A vote on an unknown candidate waits; enough of them make a request that is known try again. */
    method KeepOrphan(v: Vote, orc: Oracle) returns (enough: bool)
      requires IsRanking(rank) && Valid()
      modifies this
      ensures Valid()
      ensures var s1 := old(Abs()).(orphans := old(mapTxLockVotesOrphan) + {v});
              && enough == (RequestKnown(s1, v.txHash) && AllEnough(s1.orphans, KnownRequest(s1, v.txHash)))
              && if enough then Requested(rank, s1, Abs(), KnownRequest(s1, v.txHash), orc) else Abs() == s1
      decreases 3, 0
    {
      enough := false;
      mapTxLockVotesOrphan := mapTxLockVotesOrphan + {v};
      var known := v.txHash in mapLockRequestAccepted || v.txHash in mapLockRequestRejected;
      if known {
        var req := if v.txHash in mapLockRequestAccepted then mapLockRequestAccepted[v.txHash]
                   else mapLockRequestRejected[v.txHash];
        enough := IsEnoughOrphanVotesForTx(req);
        if enough {
          var r := ProcessTxLockRequest(req, orc);
        }
      }
    }

    /** The middle part of ProcessTxLockVote, for a vote on a known candidate. */
    method CountVote(v: Vote) returns (ok: bool)
      requires NamesCandidates(mapTxLockCandidates, mapVotedOutpoints) && v.txHash in mapTxLockCandidates
      modifies this`mapVotedOutpoints, this`mapTxLockCandidates
      ensures ok == CountsNow(old(mapTxLockCandidates), old(mapVotedOutpoints), v)
      ensures mapTxLockCandidates == if ok then WithVote(old(mapTxLockCandidates), v) else old(mapTxLockCandidates)
      ensures mapVotedOutpoints ==
              if Marked(old(mapTxLockCandidates), old(mapVotedOutpoints), v.outpoint, v.safenode, {v.txHash})
              then old(mapVotedOutpoints) else Mark(old(mapVotedOutpoints), v.outpoint, v.txHash)
      ensures old(Valid()) && Eligible(rank, v.outpoint, v.safenode) ==>
                Valid() && ok == Countable(old(mapTxLockCandidates), v)
      ensures old(Valid()) ==>
                mapVotedOutpoints == if Unopposed(old(mapTxLockCandidates), v)
                                     then Mark(old(mapVotedOutpoints), v.outpoint, v.txHash)
                                     else old(mapVotedOutpoints)
    {
      var opposed := FindVote(v.outpoint, v.safenode, {v.txHash});
      if opposed {
        return false;
      }
      ghost var voted := Mark(mapVotedOutpoints, v.outpoint, v.txHash);
      if Valid() && Eligible(rank, v.outpoint, v.safenode) {
        MarkKeeps(rank, mapTxLockCandidates, mapVotedOutpoints, mapLockedOutpoints, v.outpoint, v.txHash);
        if HasOutPoint(mapTxLockCandidates, v.txHash, v.outpoint) {
          WithVoteKeeps(rank, mapTxLockCandidates, voted, mapLockedOutpoints, v);
        }
      }
      mapVotedOutpoints := Mark(mapVotedOutpoints, v.outpoint, v.txHash);
      ok := AddVote(v);
    }

    /** Votes of this node itself, on every outpoint of a candidate it is eligible for and has
        not voted on; it stops at the first outpoint it cannot look up or sign for. */
    method CastVotes(h: nat, orc: Oracle)
      requires Valid() && h in mapTxLockCandidates
      modifies this`mapTxLockVotes, this`mapVotedOutpoints, this`mapTxLockCandidates
      ensures Valid() && HasCast(rank, old(Abs()), Abs(), h, orc)
      ensures !orc.isSafenode ==> Abs() == old(Abs())
      ensures orc.isSafenode && (forall o :: orc.utxoKnown(o) && orc.canSign(o)) ==>
                FullyCast(rank, mapTxLockCandidates, h, orc)
    {
      ghost var s := Abs();
      CastNone(rank, s, h, orc);
      if !orc.isSafenode {
        return;
      }
      var rest := mapTxLockCandidates[h].locks.Keys;
      while rest != {}
        invariant Valid() && HasCast(rank, s, Abs(), h, orc)
        invariant h in s.cands && rest <= s.cands[h].locks.Keys
        invariant forall o :: HasOutPoint(s.cands, h, o) && o !in rest && Eligible(rank, o, orc.me) ==>
                    VotedFor(mapTxLockCandidates, o, orc.me)
        decreases |rest|
      {
        var o :| o in rest;
        assert HasOutPoint(s.cands, h, o);
        ghost var t := Abs();
        var go := CastOn(h, o, orc);
        CastNext(rank, s, t, Abs(), Vote(h, o, orc.me), orc);
        if !go {
          return;
        }
        rest := rest - {o};
      }
    }

    /** The body of that loop; false means to stop. */
    method CastOn(h: nat, o: OutPoint, orc: Oracle) returns (go: bool)
      requires Valid() && HasOutPoint(mapTxLockCandidates, h, o) && orc.isSafenode
      modifies this`mapTxLockVotes, this`mapVotedOutpoints, this`mapTxLockCandidates
      ensures Valid() && CastOne(rank, old(Abs()), Abs(), Vote(h, o, orc.me), orc)
      ensures go == (orc.utxoKnown(o) && (Eligible(rank, o, orc.me) && Unvoted(old(mapTxLockCandidates), o, orc.me) ==>
                                            orc.canSign(o)))
      ensures go && Eligible(rank, o, orc.me) ==> VotedFor(mapTxLockCandidates, o, orc.me)
    {
      if !orc.utxoKnown(o) {
        return false;
      }
      if Eligible(rank, o, orc.me) {
        var already := FindVote(o, orc.me, {});
        if !already {
          if !orc.canSign(o) {
            return false;
          }
          CastVote(Vote(h, o, orc.me));
          assert HasVoted(mapTxLockCandidates, h, o, orc.me);
        }
      }
      go := true;
    }

    method CastVote(v: Vote)
      requires Valid() && HasOutPoint(mapTxLockCandidates, v.txHash, v.outpoint) &&
               Eligible(rank, v.outpoint, v.safenode)
      requires Unvoted(mapTxLockCandidates, v.outpoint, v.safenode)
      modifies this`mapTxLockVotes, this`mapVotedOutpoints, this`mapTxLockCandidates
      ensures Valid() && Abs() == old(Abs()).(cands := WithVote(old(mapTxLockCandidates), v),
                                              voted := Mark(old(mapVotedOutpoints), v.outpoint, v.txHash),
                                              votes := old(mapTxLockVotes) + {v})
    {
      mapTxLockVotes := mapTxLockVotes + {v};
      MarkKeeps(rank, mapTxLockCandidates, mapVotedOutpoints, mapLockedOutpoints, v.outpoint, v.txHash);
      WithVoteKeeps(rank, mapTxLockCandidates, Mark(mapVotedOutpoints, v.outpoint, v.txHash), mapLockedOutpoints, v);
      var added := AddVote(v);
      if added {
        mapVotedOutpoints := Mark(mapVotedOutpoints, v.outpoint, v.txHash);
      }
    }

    /** Offers every orphan vote again; those that are taken, or dropped as not spamming, leave. */
    method ProcessOrphanTxLockVotes(orc: Oracle)
      requires IsRanking(rank) && Valid()
      modifies this
      ensures Valid() && Offered(rank, old(Abs()), Abs(), old(mapTxLockVotesOrphan), orc)
      decreases 1, 0
    {
      var rest := mapTxLockVotesOrphan;
      ghost var s := Abs();
      ghost var offered: set<Vote> := {};
      OfferedNone(rank, s, orc);
      while rest != {}
        invariant Valid() && rest <= mapTxLockVotesOrphan
        invariant offered == s.orphans - rest && Offered(rank, s, Abs(), offered, orc)
        decreases |rest|
      {
        var v :| v in rest;
        ghost var t := Abs();
        var ok := ProcessTxLockVote(v, orc);
        OfferedNext(rank, s, t, Abs(), offered, v, orc, ok);
        if ok {
          mapTxLockVotesOrphan := mapTxLockVotesOrphan - {v};
        }
        rest, offered := rest - {v}, offered + {v};
      }
      assert offered == s.orphans;
    }

    /** A lock request: refused outright when one of its inputs is locked already. */
    method ProcessTxLockRequest(req: Request, orc: Oracle) returns (ok: bool)
      requires IsRanking(rank) && Valid()
      modifies this
      ensures Valid() && ok == Acceptable(old(Abs()), req, orc) && Requested(rank, old(Abs()), Abs(), req, orc)
      decreases 2
    {
      ghost var s := Abs();
      ok := TakeRequest(req, orc);
      if !ok {
        return;
      }
      ghost var s1 := Abs();
      CastVotes(req.txid, orc);
      ghost var s2 := Abs();
      ghost var t1 := CompleteRequest(req.txid, orc);
      RequestedIs(rank, s, s1, s2, t1, Abs(), req, orc);
    }

    /** The last part of ProcessTxLockRequest. */
    method CompleteRequest(h: nat, orc: Oracle) returns (ghost t1: Held)
      requires IsRanking(rank) && Valid() && h in mapTxLockCandidates
      modifies this
      ensures Valid() && Offered(rank, old(Abs()), t1, old(mapTxLockVotesOrphan), orc) && h in t1.cands
      ensures Abs() == t1.(locked := Completed(t1.cands, t1.locked, h, orc))
      decreases 1, 1
    {
      ProcessOrphanTxLockVotes(orc);
      t1 := Abs();
      TryToFinalizeLockCandidate(h, orc);
    }

    /** Its first part. */
    method TakeRequest(req: Request, orc: Oracle) returns (ok: bool)
      requires Valid()
      modifies this`mapTxLockCandidates
      ensures Valid() && ok == Acceptable(old(Abs()), req, orc)
      ensures Abs() == if ok then WithCandidate(old(Abs()), req) else old(Abs())
    {
      var conflict := AnyLocked(req.vin);
      if conflict { return false; }
      ok := CreateTxLockCandidate(req, orc);
    }

    /** The loop that looks for a conflicting lock. */
    method AnyLocked(vin: seq<OutPoint>) returns (found: bool)
      ensures found <==> exists o :: o in vin && o in mapLockedOutpoints
    {
      for i := 0 to |vin|
        invariant forall k :: 0 <= k < i ==> vin[k] !in mapLockedOutpoints
      {
        if vin[i] in mapLockedOutpoints {
          return true;
        }
      }
      found := false;
    }

    /** ProcessMessage for a vote: each vote is processed once. */
    method ReceiveVote(v: Vote, orc: Oracle) returns (ghost ok: bool)
      requires IsRanking(rank) && Valid()
      modifies this
      ensures Valid() && v in mapTxLockVotes
      ensures if v in old(mapTxLockVotes) then Abs() == old(Abs())
              else Processed(rank, old(Abs()).(votes := old(mapTxLockVotes) + {v}), Abs(), v, orc, ok)
    {
      if v in mapTxLockVotes {
        return false;
      }
      mapTxLockVotes := mapTxLockVotes + {v};
      ok := ProcessTxLockVote(v, orc);
    }

    /** The sweep, given what has expired: candidates go with the marks and locks of their outpoints. */
    method CheckAndRemove(expired: nat -> bool, voteExpired: Vote -> bool, orphanExpired: Vote -> bool)
      requires WellFormed(mapTxLockCandidates)
      modifies this
      ensures var gone := Expired(old(mapTxLockCandidates), expired);
              var outs := OutPointsOf(old(mapTxLockCandidates), gone);
              && gone == (set h | h in old(mapTxLockCandidates) && expired(h))
              && outs == (set h, o | h in gone && o in old(mapTxLockCandidates)[h].locks :: o)
              && mapTxLockCandidates == old(mapTxLockCandidates) - gone
              && mapVotedOutpoints == old(mapVotedOutpoints) - outs &&
                 mapLockedOutpoints == old(mapLockedOutpoints) - outs
              && mapLockRequestAccepted == old(mapLockRequestAccepted) - gone
              && mapLockRequestRejected == old(mapLockRequestRejected) - gone
              && (old(Valid()) ==> (Valid() <==> SweepKeeps(old(mapTxLockCandidates), old(mapVotedOutpoints), gone)))
      ensures mapTxLockVotesOrphan == set v | v in old(mapTxLockVotesOrphan) && !orphanExpired(v)
      ensures mapTxLockVotes == set v | v in old(mapTxLockVotes) && !voteExpired(v) &&
                                        !(v in old(mapTxLockVotesOrphan) && orphanExpired(v))
    {
      ghost var cands, voted, locked := mapTxLockCandidates, mapVotedOutpoints, mapLockedOutpoints;
      if Valid() { CheckAndRemoveExact(rank, cands, voted, locked, Expired(cands, expired)); }
      RemoveExpired(expired);
      mapTxLockVotes := set v | v in mapTxLockVotes && !voteExpired(v);
      mapTxLockVotes := set v | v in mapTxLockVotes && !(v in mapTxLockVotesOrphan && orphanExpired(v));
      mapTxLockVotesOrphan := set v | v in mapTxLockVotesOrphan && !orphanExpired(v);
    }

    /** Its loop over the candidates. */
    method RemoveExpired(expired: nat -> bool)
      requires WellFormed(mapTxLockCandidates)
      modifies this`mapTxLockCandidates, this`mapVotedOutpoints, this`mapLockedOutpoints,
               this`mapLockRequestAccepted, this`mapLockRequestRejected
      ensures var gone := Expired(old(mapTxLockCandidates), expired);
              Abs() == Erased(old(Abs()), gone, OutPointsOf(old(mapTxLockCandidates), gone))
    {
      var cands := mapTxLockCandidates;
      var rest := cands.Keys;
      ghost var done: set<nat>, outs: set<OutPoint> := {}, {};
      ghost var maps, gone := Abs(), Expired(cands, expired);
      NoneGone(maps);
      while rest != {}
        invariant rest <= cands.Keys && outs == OutPointsOf(cands, done)
        invariant forall h :: h in done <==> h in gone && h !in rest
        invariant Abs() == Erased(maps, done, outs)
        decreases |rest|
      {
        var h :| h in rest;
        rest := rest - {h};
        if expired(h) {
          OneMoreGone(cands, done, h);
          ErasedNext(maps, done, outs, h, cands[h].locks.Keys);
          Erase(h, cands[h]);
          done, outs := done + {h}, outs + cands[h].locks.Keys;
        }
      }
      assert done == gone;
    }

    method Erase(h: nat, c: Candidate)
      requires c.request.txid == h
      modifies this`mapTxLockCandidates, this`mapVotedOutpoints, this`mapLockedOutpoints,
               this`mapLockRequestAccepted, this`mapLockRequestRejected
      ensures Abs() == Erased(old(Abs()), {h}, c.locks.Keys)
    {
      mapLockedOutpoints := mapLockedOutpoints - c.locks.Keys;
      mapVotedOutpoints := mapVotedOutpoints - c.locks.Keys;
      mapLockRequestAccepted := mapLockRequestAccepted - {c.request.txid};
      mapLockRequestRejected := mapLockRequestRejected - {c.request.txid};
      mapTxLockCandidates := mapTxLockCandidates - {h};
    }
  }

  ghost function Erased(m: Held, gone: set<nat>, outs: set<OutPoint>): Held {
    m.(cands := m.cands - gone, voted := m.voted - outs, locked := m.locked - outs,
       accepted := m.accepted - gone, rejected := m.rejected - gone)
  }

  lemma {:induction false} NoneGone(m: Held)
    ensures Erased(m, {}, OutPointsOf(m.cands, {})) == m && OutPointsOf(m.cands, {}) == {}
  {
    assert OutPointsOf(m.cands, {}) == {};
    assert m.cands - {} == m.cands && m.voted - {} == m.voted && m.locked - {} == m.locked;
    assert m.accepted - {} == m.accepted && m.rejected - {} == m.rejected;
  }

  lemma {:induction false} ErasedNext(m: Held, done: set<nat>, outs: set<OutPoint>, h: nat, keys: set<OutPoint>)
    ensures Erased(Erased(m, done, outs), {h}, keys) == Erased(m, done + {h}, outs + keys)
  {
    MinusMinus(m.cands, done, {h});
    MinusMinus(m.voted, outs, keys);
    MinusMinus(m.locked, outs, keys);
    MinusMinus(m.accepted, done, {h});
    MinusMinus(m.rejected, done, {h});
  }

  lemma {:induction false} MinusMinus<K, V>(m: map<K, V>, a: set<K>, b: set<K>)
    ensures m - a - b == m - (a + b)
  {
  }

  // ---------------------------------------------------------------- expiry

  /** What CheckAndRemove does to the three maps when the candidates in `expired` have expired. */
  function RemoveCandidates(cands: Candidates, expired: set<nat>): Candidates { cands - expired }

  function OutPointsOf(cands: Candidates, expired: set<nat>): set<OutPoint> {
    set h, o | h in expired && h in cands && o in cands[h].locks :: o
  }

  function Expired(cands: Candidates, expired: nat -> bool): set<nat> { set h | h in cands && expired(h) }

  lemma {:induction false} OneMoreGone(cands: Candidates, done: set<nat>, h: nat)
    requires h in cands
    ensures OutPointsOf(cands, done + {h}) == OutPointsOf(cands, done) + cands[h].locks.Keys
  {
  }

  /** No candidate that stays holds a vote on an outpoint of one that goes, and no outpoint that
      stays is marked for one that goes. */
  ghost predicate SweepKeeps(cands: Candidates, voted: map<OutPoint, set<nat>>, expired: set<nat>) {
    var gone := OutPointsOf(cands, expired);
    && (forall h, o, m :: h !in expired && o in gone ==> !HasVoted(cands, h, o, m))
    && (forall o, h :: o in voted && o !in gone && h in voted[o] ==> h !in expired)
  }

  /** The sweep forgets votes per outpoint, whoever else spends it.  It keeps the invariant
      exactly then. */
  lemma {:induction false} CheckAndRemoveExact(rank: Ranking, cands: Candidates, voted: map<OutPoint, set<nat>>,
                                               locked: map<OutPoint, nat>,
                                               expired: set<nat>)
    requires Inv(rank, cands, voted, locked)
    ensures var gone := OutPointsOf(cands, expired);
            Inv(rank, RemoveCandidates(cands, expired), voted - gone, locked - gone) <==>
              SweepKeeps(cands, voted, expired)
  {
    var gone := OutPointsOf(cands, expired);
    var c, v, l := RemoveCandidates(cands, expired), voted - gone, locked - gone;
    forall h, o, m ensures HasVoted(c, h, o, m) <==> HasVoted(cands, h, o, m) && h !in expired {
    }
    forall o | o in l ensures HasOutPoint(c, l[o], o) && AllReady(c[l[o]]) {
      assert HasOutPoint(cands, locked[o], o) && AllReady(cands[locked[o]]);
    }
    assert Covered(c, v) <==> forall h, o, m :: h !in expired && o in gone ==> !HasVoted(cands, h, o, m);
    if NamesCandidates(c, v) {
      forall o, h | o in voted && o !in gone && h in voted[o] ensures h !in expired {
        assert o in v && h in v[o];
      }
    }
  }

  /** The ranking in which one safenode is first for every outpoint, and the others have no place. */
  function OnlyRanks(m: OutPoint): Ranking { (_, x) => if x == m then 1 else -1 }

  function Spending(h: nat, o: OutPoint, votes: Lock): Candidate { Candidate(Request(h, [o]), map[o := votes]) }

  lemma {:induction false} NewSpending(h: nat, o: OutPoint)
    ensures NewCandidate(Request(h, [o])) == Spending(h, o, map[])
  {
  }

  method RequestOne(man: CInstantSend, h: nat, o: OutPoint, orc: Oracle)
    requires man.Valid() && IsRanking(man.rank) && h !in man.mapTxLockCandidates && man.mapTxLockVotesOrphan == {}
    requires man.mapLockedOutpoints == map[] && !orc.isSafenode && forall r, b :: orc.requestValid(r, b)
    modifies man
    ensures man.Valid() && man.mapTxLockCandidates == old(man.mapTxLockCandidates)[h := Spending(h, o, map[])]
    ensures man.mapTxLockVotesOrphan == {} && man.mapLockedOutpoints == map[] &&
            man.mapVotedOutpoints == old(man.mapVotedOutpoints)
  {
    ghost var s := man.Abs();
    var ok := man.ProcessTxLockRequest(Request(h, [o]), orc);
    RequestAlone(man.rank, s, man.Abs(), Request(h, [o]), orc);
    NewSpending(h, o);
  }

  /** Three candidates for one outpoint, the first with some votes. */
  function ThreeFor(o: OutPoint, votes: Lock): Candidates {
    map[1 := Spending(1, o, votes), 2 := Spending(2, o, map[]), 3 := Spending(3, o, map[])]
  }

  lemma {:induction false} VotesOfThree(o: OutPoint, votes: Lock)
    ensures forall h, p, k :: HasVoted(ThreeFor(o, votes), h, p, k) <==> h == 1 && p == o && k in votes
  {
  }

  lemma {:induction false} FirstVoted(o: OutPoint, m: OutPoint)
    ensures var cands, voted := ThreeFor(o, map[m := Vote(1, o, m)]), ThreeFor(o, map[]);
            HasOutPoint(voted, 1, o) && WithVote(voted, Vote(1, o, m)) == cands && !AllReady(cands[1])
    ensures Mark(map[], o, 1) == map[o := {1}]
  {
    var v, voted := Vote(1, o, m), ThreeFor(o, map[]);
    var none, one: Lock := map[], map[m := v];
    assert none[m := v] == one && |one| == 1;
    assert voted[1] == Spending(1, o, none) && voted[1].locks[o := one] == map[o := one];
    assert WithVote(voted, v) == voted[1 := Spending(1, o, one)];
    assert o in Spending(1, o, one).locks;
  }

  method VoteOnFirst(man: CInstantSend, o: OutPoint, m: OutPoint, orc: Oracle)
    requires man.Valid() && man.rank == OnlyRanks(m) && forall v :: orc.voteValid(v)
    requires man.mapTxLockCandidates == ThreeFor(o, map[]) && man.mapVotedOutpoints == map[] &&
             man.mapLockedOutpoints == map[]
    modifies man
    ensures man.Valid() && man.mapTxLockCandidates == ThreeFor(o, map[m := Vote(1, o, m)])
    ensures man.mapVotedOutpoints == map[o := {1}] && man.mapLockedOutpoints == map[]
  {
    VotesOfThree(o, map[]);
    FirstVoted(o, m);
    var ok := man.ProcessTxLockVote(Vote(1, o, m), orc);
  }

  /** The second candidate gone, nothing marks the outpoint. */
  lemma {:induction false} SecondGone(o: OutPoint, m: OutPoint, swept: Candidates)
    requires swept == RemoveCandidates(ThreeFor(o, map[m := Vote(1, o, m)]), {2})
    ensures OutPointsOf(ThreeFor(o, map[m := Vote(1, o, m)]), {2}) == {o}
    ensures var v := Vote(3, o, m);
            CountsNow(swept, map[], v) && HasVoted(WithVote(swept, v), 1, o, m) && HasVoted(WithVote(swept, v), 3, o, m)
  {
    var cands, v := ThreeFor(o, map[m := Vote(1, o, m)]), Vote(3, o, m);
    assert HasOutPoint(cands, 2, o);
    VotesOfThree(o, map[m := Vote(1, o, m)]);
    assert HasVoted(cands, 1, o, m) && HasVoted(swept, 1, o, m);
    WithVoteVotes(swept, v);
  }

  /** A run after which the quorum argument fails. Three transactions that spend one outpoint are
      requested; safenode `m` votes for the first; the second expires; and a vote of `m` for the
      third counts as well, since nothing marks the first one any more. */
  method CheckAndRemoveForgets(o: OutPoint, m: OutPoint, orc: Oracle) returns (man: CInstantSend, ok: bool)
    requires !orc.isSafenode && (forall r, b :: orc.requestValid(r, b)) && forall v :: orc.voteValid(v)
    ensures man.rank == OnlyRanks(m) && IsRanking(man.rank) && ok && !OneVoteEach(man.mapTxLockCandidates)
    ensures HasVoted(man.mapTxLockCandidates, 1, o, m) && HasVoted(man.mapTxLockCandidates, 3, o, m)
  {
    man := new CInstantSend(OnlyRanks(m));
    RequestOne(man, 1, o, orc);
    RequestOne(man, 2, o, orc);
    RequestOne(man, 3, o, orc);
    VoteOnFirst(man, o, m, orc);
    ghost var cands := man.mapTxLockCandidates;
    man.CheckAndRemove(h => h == 2, _ => false, _ => false);
    assert Expired(cands, h => h == 2) == {2};
    SecondGone(o, m, man.mapTxLockCandidates);
    ok := man.CountVote(Vote(3, o, m));
  }
}
