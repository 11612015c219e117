/** The steps of InstantSend as relations between what a manager holds before and after, and what follows. */
module InstantSendSteps {
  import opened InstantSendSpec
  import opened Sets

  /** What the manager holds. */
  datatype Held = Held(
    accepted: map<nat, Request>, rejected: map<nat, Request>, votes: set<Vote>, orphans: set<Vote>,
    cands: Candidates, voted: map<OutPoint, set<nat>>, locked: map<OutPoint, nat>)

  ghost predicate Consistent(rank: Ranking, s: Held) { Inv(rank, s.cands, s.voted, s.locked) }

  /** The candidate exists and all its outpoints are locked for it. */
  ghost predicate LockedFor(cands: Candidates, locked: map<OutPoint, nat>, h: nat) {
    && h in cands && cands[h].locks != map[]
    && forall o :: o in cands[h].locks ==> o in locked && locked[o] == h
  }

  function LocksOn(outs: set<OutPoint>, h: nat): (r: map<OutPoint, nat>)
    ensures r.Keys == outs && forall o :: o in outs ==> r[o] == h
  {
    map o | o in outs :: h
  }

  /** The locks after an attempt to complete candidate `h`: none is reassigned. */
  function Completed(cands: Candidates, locked: map<OutPoint, nat>, h: nat, orc: Oracle): map<OutPoint, nat>
    requires h in cands
  {
    if AllReady(cands[h]) && orc.resolves(h) then LocksOn(cands[h].locks.Keys, h) + locked else locked
  }

  /** A ready candidate meets no conflicting lock, and has them all once it is completed. */
  lemma {:induction false} CompletedLocks(rank: Ranking, cands: Candidates, voted: map<OutPoint, set<nat>>,
                                          locked: map<OutPoint, nat>, h: nat, orc: Oracle)
    requires IsRanking(rank) && Inv(rank, cands, voted, locked) && h in cands && AllReady(cands[h])
    ensures forall o :: o in cands[h].request.vin && o in locked ==> locked[o] == h
    ensures orc.resolves(h) ==> LockedFor(cands, Completed(cands, locked, h, orc), h)
  {
    assert VinIsLocks(cands[h]);
    forall o | o in cands[h].locks && o in locked ensures locked[o] == h {
      ReadyMeetsNoLock(rank, cands, voted, locked, h, o);
    }
  }

  /** Completing a candidate again changes nothing, and completes no other. */
  lemma {:induction false} CompletedElse(cands: Candidates, locked: map<OutPoint, nat>, h: nat, k: nat, orc: Oracle)
    requires h in cands
    ensures LockedFor(cands, locked, h) ==> Completed(cands, locked, h, orc) == locked
    ensures k != h && LockedFor(cands, Completed(cands, locked, h, orc), k) ==> LockedFor(cands, locked, k)
  {
  }

  lemma {:induction false} CompletedKeeps(rank: Ranking, cands: Candidates, voted: map<OutPoint, set<nat>>,
                                          locked: map<OutPoint, nat>, h: nat, orc: Oracle, after: map<OutPoint, nat>)
    requires Inv(rank, cands, voted, locked) && h in cands && after == Completed(cands, locked, h, orc)
    ensures Inv(rank, cands, voted, after)
  {
    CompletedReady(cands, locked, h, orc);
  }

  lemma {:induction false} CompletedReady(cands: Candidates, locked: map<OutPoint, nat>, h: nat, orc: Oracle)
    requires h in cands && LocksReady(cands, locked)
    ensures LocksReady(cands, Completed(cands, locked, h, orc))
  {
    var after := Completed(cands, locked, h, orc);
    forall o | o in after ensures HasOutPoint(cands, after[o], o) && AllReady(cands[after[o]]) {
    }
  }

  // ---------------------------------------------------------------- a vote on a known candidate

  /** The vote counts exactly when it is valid, for an input of its transaction, and its safenode's first there. */
  ghost predicate Counted(rank: Ranking, s: Held, t: Held, v: Vote, orc: Oracle, ok: bool)
    requires v.txHash in s.cands
  {
    && t == s.(cands := t.cands, voted := t.voted, locked := t.locked)
    && ok == (VoteIsValid(rank, v, orc) && Countable(s.cands, v))
    && if ok then
         && t.cands == WithVote(s.cands, v)
         && t.voted == Mark(s.voted, v.outpoint, v.txHash)
         && t.locked == Completed(t.cands, s.locked, v.txHash, orc)
       else
         && t.cands == s.cands && t.locked == s.locked
         && t.voted == if VoteIsValid(rank, v, orc) && Unopposed(s.cands, v)
                       then Mark(s.voted, v.outpoint, v.txHash) else s.voted
  }

  lemma {:induction false} CountedIs(rank: Ranking, s: Held, t1: Held, t: Held, v: Vote, orc: Oracle, ok: bool)
    requires v.txHash in s.cands && VoteIsValid(rank, v, orc) && ok == Countable(s.cands, v)
    requires t1 == s.(cands := t1.cands, voted := t1.voted)
    requires t1.cands == if ok then WithVote(s.cands, v) else s.cands
    requires t1.voted == if Unopposed(s.cands, v) then Mark(s.voted, v.outpoint, v.txHash) else s.voted
    requires t == if ok then t1.(locked := Completed(t1.cands, s.locked, v.txHash, orc)) else t1
    ensures Counted(rank, s, t, v, orc, ok)
  {
  }

  // ---------------------------------------------------------------- marks

  type Marks = map<OutPoint, set<nat>>

  ghost predicate IsMarked(voted: Marks, h: nat, o: OutPoint) { o in voted && h in voted[o] }

  /** From v0 to v1 no mark is lost, and only marks of `more` have come. */
  ghost predicate MarkedOnly(v0: Marks, v1: Marks, more: iset<(nat, OutPoint)>) {
    && (forall h: nat, o :: IsMarked(v0, h, o) ==> IsMarked(v1, h, o))
    && (forall h: nat, o :: IsMarked(v1, h, o) ==> IsMarked(v0, h, o) || (h, o) in more)
    && (forall o :: o in v0 ==> o in v1)
    && (forall o :: o in v1 && o !in v0 ==> v1[o] != {})
  }

  lemma {:induction false} MarkedNext(v0: Marks, v1: Marks, h: nat, o: OutPoint, more: iset<(nat, OutPoint)>)
    requires MarkedOnly(v0, v1, more) && (h, o) in more
    ensures MarkedOnly(v0, Mark(v1, o, h), more)
  {
    forall k: nat, p | IsMarked(Mark(v1, o, h), k, p) ensures IsMarked(v0, k, p) || (k, p) in more {
      assert (k, p) == (h, o) || IsMarked(v1, k, p);
    }
    forall k: nat, p | IsMarked(v0, k, p) ensures IsMarked(Mark(v1, o, h), k, p) {
      assert IsMarked(v1, k, p);
    }
  }

  lemma {:induction false} MarkedMore(v0: Marks, v1: Marks, more: iset<(nat, OutPoint)>, more': iset<(nat, OutPoint)>)
    requires MarkedOnly(v0, v1, more) && more <= more'
    ensures MarkedOnly(v0, v1, more')
  {
  }

  lemma {:induction false} MarkedTrans(v0: Marks, v1: Marks, v2: Marks, more: iset<(nat, OutPoint)>)
    requires MarkedOnly(v0, v1, more) && MarkedOnly(v1, v2, more)
    ensures MarkedOnly(v0, v2, more)
  {
    forall o | o in v2 && o !in v0 ensures v2[o] != {} {
      if o in v1 {
        var h :| h in v1[o];
        assert IsMarked(v1, h, o) && IsMarked(v2, h, o);
      }
    }
  }

  lemma {:induction false} MarkedNone(v0: Marks, v1: Marks)
    requires MarkedOnly(v0, v1, iset{})
    ensures v1 == v0
  {
    forall o | o in v1 ensures o in v0 {
      assert forall h :: h in v1[o] ==> IsMarked(v1, h, o);
    }
    forall o | o in v1 ensures v1[o] == v0[o] {
      forall h ensures h in v1[o] <==> h in v0[o] {
        assert IsMarked(v1, h, o) <==> IsMarked(v0, h, o);
      }
    }
  }

  /** Where valid votes of `offered` ask for a mark. */
  ghost function Asked(rank: Ranking, offered: set<Vote>, orc: Oracle): iset<(nat, OutPoint)> {
    iset v | v in offered && VoteIsValid(rank, v, orc) :: (v.txHash, v.outpoint)
  }

  // ---------------------------------------------------------------- offering the waiting votes

  /** Votes gained from s to t are valid votes of `offered`, each its safenode's first on the outpoint. */
  ghost predicate GainsAre(rank: Ranking, c0: Candidates, c1: Candidates, offered: set<Vote>, orc: Oracle) {
    forall h, o, m :: HasVoted(c1, h, o, m) && !HasVoted(c0, h, o, m) ==>
      Vote(h, o, m) in offered && VoteIsValid(rank, Vote(h, o, m), orc) && Unvoted(c0, o, m)
  }

  /** The safenode of every valid vote offered for an input of its transaction has voted there. */
  ghost predicate AllHeard(rank: Ranking, c1: Candidates, offered: set<Vote>, orc: Oracle) {
    forall v :: v in offered && VoteIsValid(rank, v, orc) && HasOutPoint(c1, v.txHash, v.outpoint) ==>
      VotedFor(c1, v.outpoint, v.safenode)
  }

  /** Whether a waiting vote leaves once offered: when it is counted, or when its transaction is not
      known and its safenode is not spamming. */
  ghost predicate Leaves(rank: Ranking, c0: Candidates, c1: Candidates, v: Vote, orc: Oracle) {
    VoteIsValid(rank, v, orc) && if v.txHash in c0 then Holds(c1, v) && !Holds(c0, v) else orc.notSpamming(v)
  }

  /** Candidate `h` gained a vote from c0 to c1. */
  ghost predicate Gained(c0: Candidates, c1: Candidates, h: nat) {
    exists o, m :: HasVoted(c1, h, o, m) && !HasVoted(c0, h, o, m)
  }

  /** A new lock belongs to a complete candidate of `tried`. */
  ghost predicate OwnerOk(c1: Candidates, l1: map<OutPoint, nat>, tried: iset<nat>, orc: Oracle, o: OutPoint)
    requires o in l1
  {
    l1[o] in tried && HasOutPoint(c1, l1[o], o) && AllReady(c1[l1[o]]) && orc.resolves(l1[o])
  }

  /** The new locks are exactly those of the candidates of `tried` that are complete without conflict. */
  ghost predicate LocksFollow(c1: Candidates, l0: map<OutPoint, nat>, l1: map<OutPoint, nat>, tried: iset<nat>,
                              orc: Oracle)
  {
    && (forall o :: o in l1 && o !in l0 ==> OwnerOk(c1, l1, tried, orc, o))
    && (forall h :: h in tried && h in c1 && AllReady(c1[h]) && orc.resolves(h) ==> LockedFor(c1, l1, h))
  }

  ghost function Gainers(c0: Candidates, c1: Candidates): iset<nat> { iset h | Gained(c0, c1, h) }

  /** From s to t the waiting votes `offered` have been processed again. */
  ghost predicate Offered(rank: Ranking, s: Held, t: Held, offered: set<Vote>, orc: Oracle) {
    && t == s.(cands := t.cands, voted := t.voted, locked := t.locked, orphans := t.orphans)
    && Grew(s.cands, s.locked, t.cands, t.locked) && SameOutPoints(s.cands, t.cands)
    && GainsAre(rank, s.cands, t.cands, offered, orc)
    && AllHeard(rank, t.cands, offered, orc)
    && (forall v :: v in t.orphans <==> v in s.orphans && !(v in offered && Leaves(rank, s.cands, t.cands, v, orc)))
    && LocksFollow(t.cands, s.locked, t.locked, Gainers(s.cands, t.cands), orc)
    && MarkedOnly(s.voted, t.voted, Asked(rank, offered, orc))
  }

  lemma {:induction false} OfferedNone(rank: Ranking, s: Held, orc: Oracle)
    ensures Offered(rank, s, s, {}, orc)
  {
    assert Gainers(s.cands, s.cands) == iset{};
  }

  lemma {:induction false} AskedNext(rank: Ranking, v0: Marks, v1: Marks, v2: Marks, offered: set<Vote>, v: Vote,
                                     orc: Oracle)
    requires MarkedOnly(v0, v1, Asked(rank, offered, orc))
    requires v2 == v1 || (v2 == Mark(v1, v.outpoint, v.txHash) && VoteIsValid(rank, v, orc))
    ensures MarkedOnly(v0, v2, Asked(rank, offered + {v}, orc))
  {
    var more := Asked(rank, offered + {v}, orc);
    MarkedMore(v0, v1, Asked(rank, offered, orc), more);
    if v2 != v1 {
      assert v in offered + {v} && (v.txHash, v.outpoint) in more;
      MarkedNext(v0, v1, v.txHash, v.outpoint, more);
    }
  }

  /** A vote that is not counted changes nothing that offering looks at. */
  lemma {:induction false} OfferedRefused(rank: Ranking, s: Held, t: Held, voted: map<OutPoint, set<nat>>,
                                          offered: set<Vote>, v: Vote, orc: Oracle)
    requires Offered(rank, s, t, offered, orc) && v in t.orphans && v !in offered
    requires VoteIsValid(rank, v, orc) && v.txHash in s.cands ==> !Countable(t.cands, v)
    requires VoteIsValid(rank, v, orc) && v.txHash !in s.cands ==> !orc.notSpamming(v)
    requires voted == t.voted || (voted == Mark(t.voted, v.outpoint, v.txHash) && VoteIsValid(rank, v, orc))
    ensures Offered(rank, s, t.(voted := voted), offered + {v}, orc)
  {
    AskedNext(rank, s.voted, t.voted, voted, offered, v, orc);
    if VoteIsValid(rank, v, orc) && v.txHash in s.cands {
      assert Holds(t.cands, v) && !Holds(s.cands, v) ==> Vote(v.txHash, v.outpoint, v.safenode) in offered;
      if HasOutPoint(t.cands, v.txHash, v.outpoint) {
        var j :| HasVoted(t.cands, j, v.outpoint, v.safenode);
        assert VotedFor(t.cands, v.outpoint, v.safenode);
      }
    }
  }

  /** A vote on an unknown transaction leaves when its safenode is not spamming. */
  lemma {:induction false} OfferedUnknown(rank: Ranking, s: Held, t: Held, offered: set<Vote>, v: Vote, orc: Oracle)
    requires Offered(rank, s, t, offered, orc) && v in t.orphans && v !in offered
    requires VoteIsValid(rank, v, orc) && v.txHash !in s.cands && orc.notSpamming(v)
    ensures Offered(rank, s, t.(orphans := t.orphans - {v}), offered + {v}, orc)
  {
    AskedNext(rank, s.voted, t.voted, t.voted, offered, v, orc);
    assert !HasOutPoint(t.cands, v.txHash, v.outpoint);
  }

  lemma {:induction false} VotedForGrew(c0: Candidates, l0: map<OutPoint, nat>, c1: Candidates, l1: map<OutPoint, nat>,
                                        o: OutPoint, m: OutPoint)
    requires Grew(c0, l0, c1, l1) && VotedFor(c0, o, m)
    ensures VotedFor(c1, o, m)
  {
    var j :| j in c0 && HasVoted(c0, j, o, m);
    assert HasVoted(c1, j, o, m);
  }

  /** One vote more: which candidates have gained, and which are complete. */
  lemma {:induction false} GainersNext(c0: Candidates, c1: Candidates, v: Vote)
    requires HasOutPoint(c1, v.txHash, v.outpoint) && !Holds(c1, v) && !Holds(c0, v)
    ensures Gainers(c0, WithVote(c1, v)) == Gainers(c0, c1) + iset{v.txHash}
    ensures forall h :: h in c1 && h != v.txHash ==> WithVote(c1, v)[h] == c1[h]
  {
    WithVoteVotes(c1, v);
    assert HasVoted(WithVote(c1, v), v.txHash, v.outpoint, v.safenode);
    forall h ensures Gained(c0, WithVote(c1, v), h) <==> Gained(c0, c1, h) || h == v.txHash {
      if Gained(c0, c1, h) {
        var o, m :| HasVoted(c1, h, o, m) && !HasVoted(c0, h, o, m);
        assert HasVoted(WithVote(c1, v), h, o, m);
      }
    }
  }

  lemma {:induction false} LockedForCompleted(rank: Ranking, cands: Candidates, voted: map<OutPoint, set<nat>>,
                                              locked: map<OutPoint, nat>, h: nat, orc: Oracle)
    requires IsRanking(rank) && h in cands && Inv(rank, cands, voted, Completed(cands, locked, h, orc))
    requires AllReady(cands[h]) && orc.resolves(h)
    ensures LockedFor(cands, Completed(cands, locked, h, orc), h)
  {
    var after := Completed(cands, locked, h, orc);
    forall o | o in cands[h].locks ensures o in after && after[o] == h {
      ReadyMeetsNoLock(rank, cands, voted, after, h, o);
    }
  }

  lemma {:induction false} OwnerNext(c1: Candidates, l1: map<OutPoint, nat>, tried: iset<nat>, v: Vote, orc: Oracle,
                                     l2: map<OutPoint, nat>, o: OutPoint)
    requires HasOutPoint(c1, v.txHash, v.outpoint) && l2 == Completed(WithVote(c1, v), l1, v.txHash, orc) && o in l2
    requires o in l1 ==> OwnerOk(c1, l1, tried, orc, o)
    ensures OwnerOk(WithVote(c1, v), l2, tried + iset{v.txHash}, orc, o)
  {
    WithVoteVotes(c1, v);
    if o in l1 {
      WithVoteReady(c1, v, l1[o]);
    }
  }

  lemma {:induction false} LockedForNext(c1: Candidates, l1: map<OutPoint, nat>, v: Vote, l2: map<OutPoint, nat>,
                                         h: nat, orc: Oracle)
    requires HasOutPoint(c1, v.txHash, v.outpoint) && l2 == Completed(WithVote(c1, v), l1, v.txHash, orc)
    requires h != v.txHash && LockedFor(c1, l1, h)
    ensures LockedFor(WithVote(c1, v), l2, h)
  {
  }

  lemma {:induction false} LocksFollowNext(rank: Ranking, c0: Candidates, c1: Candidates, l0: map<OutPoint, nat>,
                                           l1: map<OutPoint, nat>, voted: map<OutPoint, set<nat>>, v: Vote, orc: Oracle,
                                           c2: Candidates, l2: map<OutPoint, nat>)
    requires HasOutPoint(c1, v.txHash, v.outpoint) && !Holds(c1, v) && !Holds(c0, v) && IsRanking(rank)
    requires LocksFollow(c1, l0, l1, Gainers(c0, c1), orc)
    requires c2 == WithVote(c1, v) && l2 == Completed(c2, l1, v.txHash, orc) && Inv(rank, c2, voted, l2)
    ensures LocksFollow(c2, l0, l2, Gainers(c0, c2), orc)
  {
    var tried := Gainers(c0, c1);
    GainersNext(c0, c1, v);
    forall o | o in l2 && o !in l0 ensures OwnerOk(c2, l2, tried + iset{v.txHash}, orc, o) {
      assert o in l1 ==> OwnerOk(c1, l1, tried, orc, o);
      OwnerNext(c1, l1, tried, v, orc, l2, o);
    }
    forall h | h in tried + iset{v.txHash} && h in c2 && AllReady(c2[h]) && orc.resolves(h)
      ensures LockedFor(c2, l2, h)
    {
      if h == v.txHash {
        LockedForCompleted(rank, c2, voted, l1, h, orc);
      } else {
        LockedForNext(c1, l1, v, l2, h, orc);
      }
    }
  }

  lemma {:induction false} GainsNext(rank: Ranking, c0: Candidates, c1: Candidates, l0: map<OutPoint, nat>,
                                     l1: map<OutPoint, nat>, offered: set<Vote>, v: Vote, orc: Oracle)
    requires GainsAre(rank, c0, c1, offered, orc) && AllHeard(rank, c1, offered, orc) && Grew(c0, l0, c1, l1)
    requires VoteIsValid(rank, v, orc) && Countable(c1, v)
    ensures GainsAre(rank, c0, WithVote(c1, v), offered + {v}, orc)
    ensures AllHeard(rank, WithVote(c1, v), offered + {v}, orc)
    ensures !Holds(c1, v) && !Holds(c0, v)
  {
    var c2 := WithVote(c1, v);
    WithVoteVotes(c1, v);
    WithVoteGrew(c1, l1, v);
    forall w | w in offered + {v} && VoteIsValid(rank, w, orc) && HasOutPoint(c2, w.txHash, w.outpoint)
      ensures VotedFor(c2, w.outpoint, w.safenode)
    {
      if w == v {
        assert HasVoted(c2, v.txHash, v.outpoint, v.safenode);
      } else {
        VotedForGrew(c1, l1, c2, l1, w.outpoint, w.safenode);
      }
    }
  }

  /** A vote that is counted leaves, and may complete its candidate. */
  lemma {:induction false} OfferedCounted(rank: Ranking, s: Held, t: Held, t': Held, offered: set<Vote>, v: Vote,
                                          orc: Oracle)
    requires IsRanking(rank) && Offered(rank, s, t, offered, orc) && v in t.orphans && v !in offered
    requires v.txHash in t.cands && Counted(rank, t, t', v, orc, true) && Consistent(rank, t')
    ensures Offered(rank, s, t'.(orphans := t'.orphans - {v}), offered + {v}, orc)
  {
    GainsNext(rank, s.cands, t.cands, s.locked, t.locked, offered, v, orc);
    LocksFollowNext(rank, s.cands, t.cands, s.locked, t.locked, t'.voted, v, orc, t'.cands, t'.locked);
    WithVoteVotes(t.cands, v);
    WithVoteGrew(t.cands, t.locked, v);
    CompletedGrew(t'.cands, t.locked, v.txHash, orc);
    GrewTrans(t.cands, t.locked, t'.cands, t.locked, t'.cands, t'.locked);
    GrewTrans(s.cands, s.locked, t.cands, t.locked, t'.cands, t'.locked);
    OrphansNext(rank, s, t, t', offered, v, orc);
    AskedNext(rank, s.voted, t.voted, t'.voted, offered, v, orc);
  }

  lemma {:induction false} CompletedGrew(cands: Candidates, locked: map<OutPoint, nat>, h: nat, orc: Oracle)
    requires h in cands
    ensures Grew(cands, locked, cands, Completed(cands, locked, h, orc))
  {
  }

  lemma {:induction false} OrphansNext(rank: Ranking, s: Held, t: Held, t': Held, offered: set<Vote>, v: Vote,
                                       orc: Oracle)
    requires forall w :: w in t.orphans <==>
               w in s.orphans && !(w in offered && Leaves(rank, s.cands, t.cands, w, orc))
    requires Countable(t.cands, v) && t'.cands == WithVote(t.cands, v) && t'.orphans == t.orphans
    requires VoteIsValid(rank, v, orc) && v.txHash in s.cands && !Holds(s.cands, v) && v !in offered && v in t.orphans
    ensures forall w :: w in t'.orphans - {v} <==>
              w in s.orphans && !(w in offered + {v} && Leaves(rank, s.cands, t'.cands, w, orc))
  {
    WithVoteVotes(t.cands, v);
    assert Holds(t'.cands, v);
    forall w | w != v ensures Holds(t'.cands, w) <==> Holds(t.cands, w) {
    }
    forall w | w in offered
      ensures Leaves(rank, s.cands, t'.cands, w, orc) <==> Leaves(rank, s.cands, t.cands, w, orc)
    {
    }
  }

  // ---------------------------------------------------------------- this node's votes

  /** This node may vote on `o` as far as the chain and its key go. */
  predicate MayVote(o: OutPoint, orc: Oracle) { orc.isSafenode && orc.utxoKnown(o) && orc.canSign(o) }

  /** Between s and t nothing happened, or this node has cast the vote `v`, its first on the outpoint. */
  ghost predicate CastOne(rank: Ranking, s: Held, t: Held, v: Vote, orc: Oracle) {
    || t == s
    || (&& HasOutPoint(s.cands, v.txHash, v.outpoint) && Eligible(rank, v.outpoint, v.safenode)
        && Unvoted(s.cands, v.outpoint, v.safenode) && v.safenode == orc.me && MayVote(v.outpoint, orc)
        && t == s.(cands := WithVote(s.cands, v), voted := Mark(s.voted, v.outpoint, v.txHash), votes := s.votes + {v}))
  }

  /** From s to t this node has cast votes for candidate `h`: where it is eligible, may vote and has not
      voted; and it remembers those votes and no other. */
  ghost predicate HasCast(rank: Ranking, s: Held, t: Held, h: nat, orc: Oracle) {
    && t == s.(cands := t.cands, voted := t.voted, votes := t.votes)
    && Grew(s.cands, s.locked, t.cands, t.locked) && SameOutPoints(s.cands, t.cands)
    && (forall k, o, m :: HasVoted(t.cands, k, o, m) && !HasVoted(s.cands, k, o, m) ==>
          k == h && m == orc.me && Eligible(rank, o, m) && MayVote(o, orc) && Unvoted(s.cands, o, m)
          && Vote(k, o, m) in t.votes)
    && s.votes <= t.votes
    && (forall v :: v in t.votes && v !in s.votes ==>
          v.txHash == h && v.safenode == orc.me && Holds(t.cands, v) && !Holds(s.cands, v))
    && MarkedOnly(s.voted, t.voted, OwnMarks(h, orc))
  }

  ghost function OwnMarks(h: nat, orc: Oracle): iset<(nat, OutPoint)> { iset o: OutPoint | MayVote(o, orc) :: (h, o) }

  lemma {:induction false} CastNone(rank: Ranking, s: Held, h: nat, orc: Oracle)
    ensures HasCast(rank, s, s, h, orc)
  {
  }

  lemma {:induction false} CastNext(rank: Ranking, s: Held, t: Held, t': Held, v: Vote, orc: Oracle)
    requires HasCast(rank, s, t, v.txHash, orc) && CastOne(rank, t, t', v, orc)
    ensures HasCast(rank, s, t', v.txHash, orc)
    ensures forall o, m :: VotedFor(t.cands, o, m) ==> VotedFor(t'.cands, o, m)
  {
    if t' != t {
      WithVoteVotes(t.cands, v);
      WithVoteGrew(t.cands, t.locked, v);
      GrewTrans(s.cands, s.locked, t.cands, t.locked, t'.cands, t'.locked);
      MarkedNext(s.voted, t.voted, v.txHash, v.outpoint, OwnMarks(v.txHash, orc));
      assert Holds(t'.cands, v) && !Holds(t.cands, v);
      forall o, m | VotedFor(t.cands, o, m) ensures VotedFor(t'.cands, o, m) {
        VotedForGrew(t.cands, t.locked, t'.cands, t'.locked, o, m);
      }
    }
  }

  /** This node has voted wherever it is eligible among the outpoints of `h`. */
  ghost predicate FullyCast(rank: Ranking, cands: Candidates, h: nat, orc: Oracle) {
    forall o :: HasOutPoint(cands, h, o) && Eligible(rank, o, orc.me) ==> VotedFor(cands, o, orc.me)
  }

  // ---------------------------------------------------------------- a lock request

  /** A request is taken when it is valid and none of its inputs is locked. */
  ghost predicate Acceptable(s: Held, req: Request, orc: Oracle) {
    orc.requestValid(req, !AllEnough(s.orphans, req)) && forall o :: o in req.vin ==> o !in s.locked
  }

  /** With a candidate for the request, if there was none. */
  function WithCandidate(s: Held, req: Request): Held {
    if req.txid in s.cands then s else s.(cands := s.cands[req.txid := NewCandidate(req)])
  }

  /** The vote is one that this node casts while it processes a request for `h`. */
  predicate Own(v: Vote, h: nat, orc: Oracle) { v.txHash == h && v.safenode == orc.me && MayVote(v.outpoint, orc) }

  /** A vote gained is this node's, and remembered, or was waiting; and its safenode's first on the outpoint. */
  ghost predicate GainOk(rank: Ranking, s: Held, t: Held, v: Vote, h: nat, orc: Oracle) {
    && Eligible(rank, v.outpoint, v.safenode) && Unvoted(s.cands, v.outpoint, v.safenode)
    && ((Own(v, h, orc) && v in t.votes) || (v in s.orphans && orc.voteValid(v)))
  }

  /** A waiting vote goes only when valid, and when it is counted now or its transaction is not known; and
      then it does, but for one that this node has cast itself. */
  ghost predicate WaitsOk(rank: Ranking, s: Held, t: Held, v: Vote, h: nat, orc: Oracle)
    requires v in s.orphans
  {
    var counted := Holds(t.cands, v) && !Holds(s.cands, v);
    && (v !in t.orphans ==>
          VoteIsValid(rank, v, orc) && if v.txHash in t.cands then counted else orc.notSpamming(v))
    && (v in t.orphans && VoteIsValid(rank, v, orc) ==>
          if v.txHash in t.cands then counted ==> Own(v, h, orc) else !orc.notSpamming(v))
  }

  /** What processing a lock request does. */
  ghost predicate Requested(rank: Ranking, s: Held, t: Held, req: Request, orc: Oracle) {
    if !Acceptable(s, req, orc) then t == s
    else
      var h, s1 := req.txid, WithCandidate(s, req);
      && t.accepted == s.accepted && t.rejected == s.rejected
      && Grew(s1.cands, s.locked, t.cands, t.locked) && SameOutPoints(s1.cands, t.cands)
      && (forall k, o, m :: HasVoted(t.cands, k, o, m) && !HasVoted(s.cands, k, o, m) ==>
            GainOk(rank, s, t, Vote(k, o, m), h, orc))
      && s.votes <= t.votes
      && (forall v :: v in t.votes && v !in s.votes ==> Own(v, h, orc) && Holds(t.cands, v) && !Holds(s.cands, v))
      && (orc.isSafenode && (forall o :: orc.utxoKnown(o) && orc.canSign(o)) ==> FullyCast(rank, t.cands, h, orc))
      && AllHeard(rank, t.cands, s.orphans, orc)
      && t.orphans <= s.orphans && (forall v :: v in s.orphans ==> WaitsOk(rank, s, t, v, h, orc))
      && LocksFollow(t.cands, s.locked, t.locked, Gainers(s.cands, t.cands) + iset{h}, orc)
      && MarkedOnly(s.voted, t.voted, OwnMarks(h, orc) + Asked(rank, s.orphans, orc))
  }

  lemma {:induction false} WithCandidateSame(s: Held, req: Request)
    ensures forall h, o, m :: HasVoted(WithCandidate(s, req).cands, h, o, m) <==> HasVoted(s.cands, h, o, m)
    ensures Grew(s.cands, s.locked, WithCandidate(s, req).cands, s.locked)
  {
  }

  lemma {:induction false} GainsOfRequest(rank: Ranking, s: Held, s1: Held, s2: Held, t: Held, h: nat, orc: Oracle)
    requires forall k, o, m :: HasVoted(s1.cands, k, o, m) <==> HasVoted(s.cands, k, o, m)
    requires HasCast(rank, s1, s2, h, orc) && GainsAre(rank, s2.cands, t.cands, s.orphans, orc) && t.votes == s2.votes
    ensures forall k, o, m :: HasVoted(t.cands, k, o, m) && !HasVoted(s.cands, k, o, m) ==>
              GainOk(rank, s, t, Vote(k, o, m), h, orc)
    ensures Gainers(s.cands, t.cands) + iset{h} == Gainers(s2.cands, t.cands) + iset{h}
  {
    forall k, o, m | HasVoted(t.cands, k, o, m) && !HasVoted(s.cands, k, o, m)
      ensures GainOk(rank, s, t, Vote(k, o, m), h, orc)
    {
      if !HasVoted(s2.cands, k, o, m) {
        forall j ensures !HasVoted(s.cands, j, o, m) {
          assert HasVoted(s1.cands, j, o, m) ==> HasVoted(s2.cands, j, o, m);
        }
      }
    }
    forall k | k != h ensures Gained(s.cands, t.cands, k) <==> Gained(s2.cands, t.cands, k) {
      if Gained(s.cands, t.cands, k) {
        var o, m :| HasVoted(t.cands, k, o, m) && !HasVoted(s.cands, k, o, m);
        assert !HasVoted(s2.cands, k, o, m);
      }
      if Gained(s2.cands, t.cands, k) {
        var o, m :| HasVoted(t.cands, k, o, m) && !HasVoted(s2.cands, k, o, m);
        assert !HasVoted(s1.cands, k, o, m);
      }
    }
  }

  lemma {:induction false} LocksFollowOne(rank: Ranking, cands: Candidates, l0: map<OutPoint, nat>,
                                          l1: map<OutPoint, nat>, voted: map<OutPoint, set<nat>>, tried: iset<nat>,
                                          h: nat, orc: Oracle, l2: map<OutPoint, nat>)
    requires IsRanking(rank) && LocksFollow(cands, l0, l1, tried, orc) && h in cands
    requires l2 == Completed(cands, l1, h, orc) && Inv(rank, cands, voted, l2)
    ensures LocksFollow(cands, l0, l2, tried + iset{h}, orc)
  {
    forall o | o in l2 && o !in l0 ensures OwnerOk(cands, l2, tried + iset{h}, orc, o) {
      assert o in l1 ==> OwnerOk(cands, l1, tried, orc, o);
    }
    forall k | k in tried + iset{h} && k in cands && AllReady(cands[k]) && orc.resolves(k)
      ensures LockedFor(cands, l2, k)
    {
      if k == h {
        LockedForCompleted(rank, cands, voted, l1, h, orc);
      } else {
        assert LockedFor(cands, l1, k);
      }
    }
  }

  lemma {:induction false} WaitsOfRequest(rank: Ranking, s: Held, s1: Held, s2: Held, t: Held, v: Vote, h: nat,
                                          orc: Oracle)
    requires forall k, o, m :: HasVoted(s1.cands, k, o, m) <==> HasVoted(s.cands, k, o, m)
    requires HasCast(rank, s1, s2, h, orc) && v in s.orphans && SameOutPoints(s2.cands, t.cands)
    requires Grew(s2.cands, s2.locked, t.cands, t.locked)
    requires v in t.orphans <==> !Leaves(rank, s2.cands, t.cands, v, orc)
    ensures WaitsOk(rank, s, t, v, h, orc)
  {
    assert v.txHash in t.cands <==> v.txHash in s2.cands;
    assert Holds(s2.cands, v) && !Holds(s.cands, v) ==> Own(v, h, orc);
    assert Holds(s.cands, v) ==> Holds(s2.cands, v);
  }

  /** Making a candidate, casting votes, offering what waits and trying to complete it: that is the request. */
  lemma {:induction false} RequestedIs(rank: Ranking, s: Held, s1: Held, s2: Held, t1: Held, t: Held, req: Request,
                                       orc: Oracle)
    requires Acceptable(s, req, orc) && s1 == WithCandidate(s, req) && HasCast(rank, s1, s2, req.txid, orc)
    requires orc.isSafenode && (forall o :: orc.utxoKnown(o) && orc.canSign(o)) ==>
               FullyCast(rank, s2.cands, req.txid, orc)
    requires Offered(rank, s2, t1, s2.orphans, orc) && req.txid in t1.cands
    requires t == t1.(locked := Completed(t1.cands, t1.locked, req.txid, orc))
    requires IsRanking(rank) && Consistent(rank, t)
    ensures Requested(rank, s, t, req, orc)
  {
    var h := req.txid;
    WithCandidateSame(s, req);
    RequestFrame(rank, s, s1, s2, t1, t, h, orc);
    GainsOfRequest(rank, s, s1, s2, t, h, orc);
    LocksFollowOne(rank, t.cands, s.locked, t1.locked, t.voted, Gainers(s2.cands, t.cands), h, orc, t.locked);
    RequestVotes(rank, s, s1, s2, t, h, orc);
    RequestWaits(rank, s, s1, s2, t1, t, h, orc);
    RequestMarks(rank, s.voted, s2.voted, t.voted, h, s.orphans, orc);
  }

  lemma {:induction false} RequestMarks(rank: Ranking, v0: Marks, v1: Marks, v2: Marks, h: nat, offered: set<Vote>,
                                        orc: Oracle)
    requires MarkedOnly(v0, v1, OwnMarks(h, orc)) && MarkedOnly(v1, v2, Asked(rank, offered, orc))
    ensures MarkedOnly(v0, v2, OwnMarks(h, orc) + Asked(rank, offered, orc))
  {
    var more := OwnMarks(h, orc) + Asked(rank, offered, orc);
    MarkedMore(v0, v1, OwnMarks(h, orc), more);
    MarkedMore(v1, v2, Asked(rank, offered, orc), more);
    MarkedTrans(v0, v1, v2, more);
  }

  lemma {:induction false} RequestFrame(rank: Ranking, s: Held, s1: Held, s2: Held, t1: Held, t: Held, h: nat,
                                        orc: Oracle)
    requires HasCast(rank, s1, s2, h, orc) && Offered(rank, s2, t1, s2.orphans, orc) && h in t1.cands
    requires t == t1.(locked := Completed(t1.cands, t1.locked, h, orc)) && s1.locked == s.locked
    ensures Grew(s1.cands, s.locked, t.cands, t.locked) && SameOutPoints(s1.cands, t.cands)
    ensures Grew(s2.cands, s2.locked, t.cands, t.locked) && SameOutPoints(s2.cands, t.cands)
  {
    CompletedGrew(t.cands, t1.locked, h, orc);
    GrewTrans(s2.cands, s.locked, t.cands, t1.locked, t.cands, t.locked);
    GrewTrans(s1.cands, s.locked, s2.cands, s.locked, t.cands, t.locked);
  }

  lemma {:induction false} RequestWaits(rank: Ranking, s: Held, s1: Held, s2: Held, t1: Held, t: Held, h: nat,
                                        orc: Oracle)
    requires forall k, o, m :: HasVoted(s1.cands, k, o, m) <==> HasVoted(s.cands, k, o, m)
    requires HasCast(rank, s1, s2, h, orc) && Offered(rank, s2, t1, s2.orphans, orc) && s1.orphans == s.orphans
    requires t == t1.(locked := t.locked) && Grew(s2.cands, s2.locked, t.cands, t.locked)
    ensures t.orphans <= s.orphans && forall v :: v in s.orphans ==> WaitsOk(rank, s, t, v, h, orc)
  {
    forall v | v in s.orphans ensures WaitsOk(rank, s, t, v, h, orc) {
      WaitsOfRequest(rank, s, s1, s2, t, v, h, orc);
    }
  }

  lemma {:induction false} RequestVotes(rank: Ranking, s: Held, s1: Held, s2: Held, t: Held, h: nat, orc: Oracle)
    requires forall k, o, m :: HasVoted(s1.cands, k, o, m) <==> HasVoted(s.cands, k, o, m)
    requires HasCast(rank, s1, s2, h, orc) && t.votes == s2.votes && s1.votes == s.votes
    requires Grew(s2.cands, s2.locked, t.cands, t.locked) && SameOutPoints(s2.cands, t.cands)
    ensures s.votes <= t.votes
    ensures forall v :: v in t.votes && v !in s.votes ==> Own(v, h, orc) && Holds(t.cands, v) && !Holds(s.cands, v)
    ensures FullyCast(rank, s2.cands, h, orc) ==> FullyCast(rank, t.cands, h, orc)
  {
    forall v | v in t.votes && v !in s.votes ensures Own(v, h, orc) && Holds(t.cands, v) && !Holds(s.cands, v) {
      assert HasVoted(s2.cands, v.txHash, v.outpoint, v.safenode);
      assert !HasVoted(s1.cands, v.txHash, v.outpoint, v.safenode);
    }
    if FullyCast(rank, s2.cands, h, orc) {
      forall o | HasOutPoint(t.cands, h, o) && Eligible(rank, o, orc.me) ensures VotedFor(t.cands, o, orc.me) {
        assert HasOutPoint(s2.cands, h, o);
        VotedForGrew(s2.cands, s2.locked, t.cands, t.locked, o, orc.me);
      }
    }
  }

  // ---------------------------------------------------------------- a vote

  predicate RequestKnown(s: Held, h: nat) { h in s.accepted || h in s.rejected }

  /** The request of that hash that is known. */
  function KnownRequest(s: Held, h: nat): Request
    requires RequestKnown(s, h)
  {
    if h in s.accepted then s.accepted[h] else s.rejected[h]
  }

  /** What processing a vote does; `ok` is its answer.  A valid vote on an unknown transaction waits, and a
      known request that then has enough votes waiting is processed again. */
  ghost predicate Processed(rank: Ranking, s: Held, t: Held, v: Vote, orc: Oracle, ok: bool) {
    if v.txHash in s.cands then Counted(rank, s, t, v, orc, ok)
    else if !VoteIsValid(rank, v, orc) then t == s && !ok
    else if v in s.orphans then t == s && ok == orc.notSpamming(v)
    else
      var s1 := s.(orphans := s.orphans + {v});
      if RequestKnown(s1, v.txHash) && AllEnough(s1.orphans, KnownRequest(s1, v.txHash))
      then ok && Requested(rank, s1, t, KnownRequest(s1, v.txHash), orc)
      else t == s1 && ok == orc.notSpamming(v)
  }

  /** One turn of the loop over the waiting votes. */
  lemma {:induction false} OfferedNext(rank: Ranking, s: Held, t: Held, t': Held, offered: set<Vote>, v: Vote,
                                       orc: Oracle, ok: bool)
    requires IsRanking(rank) && Offered(rank, s, t, offered, orc) && v in t.orphans && v !in offered
    requires Processed(rank, t, t', v, orc, ok) && Consistent(rank, t')
    ensures Offered(rank, s, if ok then t'.(orphans := t'.orphans - {v}) else t', offered + {v}, orc)
  {
    assert v.txHash in t.cands <==> v.txHash in s.cands;
    if ok {
      if v.txHash in t.cands {
        OfferedCounted(rank, s, t, t', offered, v, orc);
      } else {
        OfferedUnknown(rank, s, t, offered, v, orc);
      }
    } else {
      OfferedRefused(rank, s, t, t'.voted, offered, v, orc);
    }
  }

  // ---------------------------------------------------------------- six votes

  /** The safenode has voted on the outpoint for no other candidate, and no other vote of it there waits. */
  ghost predicate Unrivalled(s: Held, v: Vote) {
    && (forall k :: k != v.txHash ==> !HasVoted(s.cands, k, v.outpoint, v.safenode))
    && (forall w :: w in s.orphans && w.outpoint == v.outpoint && w.safenode == v.safenode ==> w.txHash == v.txHash)
  }

  /** The valid votes that wait for outpoint `o` of transaction `h`, of one of the ten eligible safenodes each. */
  ghost function WaitingFor(rank: Ranking, s: Held, h: nat, o: OutPoint, orc: Oracle): set<Vote> {
    set v | v in s.orphans && v.txHash == h && v.outpoint == o && 1 <= rank(o, v.safenode) <= 10 && orc.voteValid(v)
            && Unrivalled(s, v)
  }

  lemma {:induction false} VotersSize(votes: set<Vote>, h: nat, o: OutPoint, keys: set<OutPoint>)
    requires forall v :: v in votes ==> v.txHash == h && v.outpoint == o && v.safenode in keys
    ensures |votes| <= |keys|
  {
    if votes != {} {
      var v :| v in votes;
      forall w | w in votes - {v} ensures w.safenode in keys - {v.safenode} {
        assert w == Vote(h, o, w.safenode) && v == Vote(h, o, v.safenode);
      }
      VotersSize(votes - {v}, h, o, keys - {v.safenode});
    }
  }

  lemma {:induction false} WaitingIsCounted(rank: Ranking, s: Held, t: Held, req: Request, orc: Oracle, v: Vote)
    requires Requested(rank, s, t, req, orc) && Acceptable(s, req, orc)
    requires v in s.orphans && VoteIsValid(rank, v, orc) && Unrivalled(s, v) && v.txHash == req.txid
    requires HasOutPoint(t.cands, v.txHash, v.outpoint)
    ensures Holds(t.cands, v)
  {
    WithCandidateSame(s, req);
    assert VotedFor(t.cands, v.outpoint, v.safenode);
    var j :| HasVoted(t.cands, j, v.outpoint, v.safenode);
    if HasVoted(s.cands, j, v.outpoint, v.safenode) {
      assert HasVoted(WithCandidate(s, req).cands, j, v.outpoint, v.safenode);
    } else {
      assert GainOk(rank, s, t, Vote(j, v.outpoint, v.safenode), req.txid, orc);
    }
  }

  lemma {:induction false} SixWaitingReady(rank: Ranking, s: Held, t: Held, req: Request, orc: Oracle, o: OutPoint)
    requires Requested(rank, s, t, req, orc) && Acceptable(s, req, orc) && HasOutPoint(t.cands, req.txid, o)
    requires |WaitingFor(rank, s, req.txid, o, orc)| >= 6
    ensures IsReady(t.cands[req.txid].locks[o])
  {
    var l := t.cands[req.txid].locks[o];
    var votes := WaitingFor(rank, s, req.txid, o, orc);
    forall v | v in votes ensures v.safenode in l.Keys {
      WaitingIsCounted(rank, s, t, req, orc, v);
    }
    VotersSize(votes, req.txid, o, l.Keys);
    assert |l.Keys| == |l|;
  }

  /** Six valid votes waiting for each input lock the transaction as soon as its request is taken. */
  lemma {:induction false} SixVotesLock(rank: Ranking, s: Held, t: Held, req: Request, orc: Oracle)
    requires Requested(rank, s, t, req, orc) && Acceptable(s, req, orc) && Consistent(rank, t)
    requires req.vin != [] && orc.resolves(req.txid)
    requires req.txid in s.cands ==> s.cands[req.txid].request == req
    requires forall o :: o in req.vin ==> |WaitingFor(rank, s, req.txid, o, orc)| >= 6
    ensures LockedFor(t.cands, t.locked, req.txid)
  {
    RequestedCandidate(rank, s, t, req, orc);
    var locks := t.cands[req.txid].locks;
    forall o | o in locks ensures IsReady(locks[o]) {
      SixWaitingReady(rank, s, t, req, orc, o);
    }
    assert req.vin[0] in locks;
    ReadyIsLocked(rank, s, t, req, orc);
  }

  lemma {:induction false} RequestedCandidate(rank: Ranking, s: Held, t: Held, req: Request, orc: Oracle)
    requires Requested(rank, s, t, req, orc) && Acceptable(s, req, orc) && WellFormed(t.cands)
    requires req.txid in s.cands ==> s.cands[req.txid].request == req
    ensures req.txid in t.cands && forall o :: o in req.vin <==> o in t.cands[req.txid].locks
  {
    assert req.txid in WithCandidate(s, req).cands && WithCandidate(s, req).cands[req.txid].request == req;
    assert VinIsLocks(t.cands[req.txid]);
  }

  lemma {:induction false} ReadyIsLocked(rank: Ranking, s: Held, t: Held, req: Request, orc: Oracle)
    requires Requested(rank, s, t, req, orc) && Acceptable(s, req, orc) && req.txid in t.cands
    requires AllReady(t.cands[req.txid]) && orc.resolves(req.txid)
    ensures LockedFor(t.cands, t.locked, req.txid)
  {
    assert req.txid in Gainers(s.cands, t.cands) + iset{req.txid};
  }

  /** When a request is known, valid and not in conflict, the vote that makes it six for each input locks it. */
  lemma {:induction false} SixthVoteLocks(rank: Ranking, s: Held, t: Held, v: Vote, orc: Oracle, ok: bool, req: Request)
    requires Processed(rank, s, t, v, orc, ok) && Consistent(rank, t)
    requires v.txHash !in s.cands && v !in s.orphans && 1 <= rank(v.outpoint, v.safenode) <= 10 && orc.voteValid(v)
    requires RequestKnown(s, v.txHash) && KnownRequest(s, v.txHash) == req && req.txid == v.txHash && req.vin != []
    requires orc.resolves(req.txid) && forall b :: orc.requestValid(req, b)
    requires forall o :: o in req.vin ==> o !in s.locked
    requires var s1 := s.(orphans := s.orphans + {v});
             forall o :: o in req.vin ==> |WaitingFor(rank, s1, req.txid, o, orc)| >= 6
    ensures ok && LockedFor(t.cands, t.locked, req.txid)
  {
    var s1 := s.(orphans := s.orphans + {v});
    forall o | o in req.vin ensures EnoughOrphans(s1.orphans, req.txid, o) {
      SubsetSize(WaitingFor(rank, s1, req.txid, o, orc), OrphansFor(s1.orphans, req.txid, o));
    }
    SixVotesLock(rank, s1, t, req, orc);
  }

  /** A lock rests on six votes for every input, each of one of the ten eligible safenodes. */
  lemma {:induction false} LockNeedsSix(rank: Ranking, s: Held, h: nat, o: OutPoint)
    requires IsRanking(rank) && Consistent(rank, s) && LockedFor(s.cands, s.locked, h) && o in s.cands[h].request.vin
    ensures o in s.cands[h].locks && |s.cands[h].locks[o]| >= 6
    ensures forall m :: m in s.cands[h].locks[o] ==> 1 <= rank(o, m) <= 10
  {
    assert HasOutPoint(s.cands, s.locked[o], o) && AllReady(s.cands[s.locked[o]]);
    forall m | m in s.cands[h].locks[o] ensures 1 <= rank(o, m) <= 10 {
      assert HasVoted(s.cands, h, o, m);
    }
  }

  /** With no vote waiting, on a node that does not vote, a new request only makes its candidate. */
  lemma {:induction false} RequestAlone(rank: Ranking, s: Held, t: Held, req: Request, orc: Oracle)
    requires Requested(rank, s, t, req, orc) && Acceptable(s, req, orc) && Consistent(rank, s) && Consistent(rank, t)
    requires s.orphans == {} && !orc.isSafenode && req.txid !in s.cands
    ensures t == WithCandidate(s, req)
  {
    WithCandidateSame(s, req);
    AloneVotes(rank, s, t, req, orc);
    AloneCandidates(rank, s, t, req, orc);
    assert OwnMarks(req.txid, orc) + Asked(rank, s.orphans, orc) == iset{};
    MarkedNone(s.voted, t.voted);
    AloneLocks(rank, s, t, req, orc);
  }

  lemma {:induction false} AloneVotes(rank: Ranking, s: Held, t: Held, req: Request, orc: Oracle)
    requires Requested(rank, s, t, req, orc) && Acceptable(s, req, orc) && s.orphans == {} && !orc.isSafenode
    ensures forall h, o, m :: HasVoted(t.cands, h, o, m) ==> HasVoted(s.cands, h, o, m)
  {
    forall h, o, m | HasVoted(t.cands, h, o, m) ensures HasVoted(s.cands, h, o, m) {
      assert !HasVoted(s.cands, h, o, m) ==> GainOk(rank, s, t, Vote(h, o, m), req.txid, orc);
    }
  }

  lemma {:induction false} AloneCandidates(rank: Ranking, s: Held, t: Held, req: Request, orc: Oracle)
    requires Requested(rank, s, t, req, orc) && Acceptable(s, req, orc)
    requires VotesInPlace(t.cands) && VotesInPlace(s.cands)
    requires forall h, o, m :: HasVoted(t.cands, h, o, m) ==> HasVoted(s.cands, h, o, m)
    ensures t.cands == WithCandidate(s, req).cands
  {
    WithCandidateSame(s, req);
    CandidatesAre(WithCandidate(s, req).cands, t.cands);
  }

  lemma {:induction false} AloneLocks(rank: Ranking, s: Held, t: Held, req: Request, orc: Oracle)
    requires Requested(rank, s, t, req, orc) && Acceptable(s, req, orc)
    requires forall h, o, m :: HasVoted(t.cands, h, o, m) ==> HasVoted(s.cands, h, o, m)
    requires req.txid !in s.cands && t.cands == WithCandidate(s, req).cands
    ensures t.locked == s.locked
  {
    var locks := t.cands[req.txid].locks;
    assert forall o :: o in locks ==> !IsReady(locks[o]);
    assert Gainers(s.cands, t.cands) == iset{};
    assert forall o :: o in t.locked && o !in s.locked ==>
        OwnerOk(t.cands, t.locked, Gainers(s.cands, t.cands) + iset{req.txid}, orc, o);
  }
}
