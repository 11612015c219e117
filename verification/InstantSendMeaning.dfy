/** What the steps of InstantSend come to, in terms of the votes and locks themselves. */
module InstantSendMeaning {
  import opened InstantSendSpec
  import opened InstantSendSteps

  /** The votes that wait for an outpoint of a transaction. */
  function Waiting(votes: set<Vote>, h: nat, o: OutPoint): set<Vote> {
    set v | v in votes && v.txHash == h && v.outpoint == o
  }

  /** A vote on a candidate counts exactly when it is valid, of one of the ten eligible safenodes, for one of
      the inputs, and the first of its safenode there, whatever the candidate; then it is the only vote
      gained, and locks come only for that candidate. */
  lemma {:induction false} CountedWhen(rank: Ranking, s: Held, t: Held, v: Vote, orc: Oracle, ok: bool)
    requires v.txHash in s.cands && Processed(rank, s, t, v, orc, ok) && Consistent(rank, s) && IsRanking(rank)
    ensures ok <==> 1 <= rank(v.outpoint, v.safenode) <= 10 && orc.voteValid(v) &&
                    v.outpoint in s.cands[v.txHash].locks &&
                    forall j :: j in s.cands && v.outpoint in s.cands[j].locks ==>
                      v.safenode !in s.cands[j].locks[v.outpoint]
    ensures !ok ==> t.cands == s.cands && t.locked == s.locked
    ensures ok ==> forall h, o, m :: HasVoted(t.cands, h, o, m) <==>
                     HasVoted(s.cands, h, o, m) || (h == v.txHash && o == v.outpoint && m == v.safenode)
    ensures forall o :: o in s.locked ==> o in t.locked && t.locked[o] == s.locked[o]
    ensures forall o :: o in t.locked && o !in s.locked ==> t.locked[o] == v.txHash && orc.resolves(v.txHash)
    ensures t.orphans == s.orphans && t.votes == s.votes && t.accepted == s.accepted && t.rejected == s.rejected
  {
    if forall j :: j in s.cands && v.outpoint in s.cands[j].locks ==> v.safenode !in s.cands[j].locks[v.outpoint] {
      assert Unvoted(s.cands, v.outpoint, v.safenode);
    }
    if ok { WithVoteVotes(s.cands, v); }
  }

  /** Some input of the request known, accepted or else rejected, has fewer than six votes waiting; or none is. */
  ghost predicate TooFew(s: Held, h: nat, votes: set<Vote>) {
    h in s.accepted || h in s.rejected ==>
      var req := if h in s.accepted then s.accepted[h] else s.rejected[h];
      exists o :: o in req.vin && |Waiting(votes, req.txid, o)| < 6
  }

  /** A valid vote on a transaction without a candidate waits, and that is all, unless its request is known and
      each input has six votes waiting; one that is not valid changes nothing. */
  lemma {:induction false} VoteWaits(rank: Ranking, s: Held, t: Held, v: Vote, orc: Oracle, ok: bool)
    requires v.txHash !in s.cands && Processed(rank, s, t, v, orc, ok) && IsRanking(rank)
    ensures var valid := 1 <= rank(v.outpoint, v.safenode) <= 10 && orc.voteValid(v);
            && (!valid ==> t == s && !ok)
            && (valid && (v in s.orphans || TooFew(s, v.txHash, s.orphans + {v})) ==>
                  t == s.(orphans := s.orphans + {v}) && ok == orc.notSpamming(v))
  {
    if v in s.orphans { assert s.orphans + {v} == s.orphans; }
    var s1 := s.(orphans := s.orphans + {v});
    if RequestKnown(s, v.txHash) && TooFew(s, v.txHash, s1.orphans) {
      var req := KnownRequest(s, v.txHash);
      var o :| o in req.vin && |Waiting(s1.orphans, req.txid, o)| < 6;
      assert Waiting(s1.orphans, req.txid, o) == OrphansFor(s1.orphans, req.txid, o);
      assert !AllEnough(s1.orphans, req);
    }
  }

  /** A request is taken exactly when it is valid, given whether six votes wait for each input, and no input is
      locked. */
  lemma {:induction false} TakenWhen(s: Held, req: Request, orc: Oracle)
    ensures Acceptable(s, req, orc) <==>
              (forall o :: o in req.vin ==> o !in s.locked) &&
              orc.requestValid(req, exists o :: o in req.vin && |Waiting(s.orphans, req.txid, o)| < 6)
  {
    assert forall o :: Waiting(s.orphans, req.txid, o) == OrphansFor(s.orphans, req.txid, o);
    assert AllEnough(s.orphans, req) <==> !exists o :: o in req.vin && |Waiting(s.orphans, req.txid, o)| < 6;
  }

  /** Votes gained while a request is processed are first votes of eligible safenodes: this node's, on the
      request, where it knows the output and can sign, and then remembered; or valid ones that waited. */
  lemma {:induction false} NewVotes(rank: Ranking, s: Held, t: Held, req: Request, orc: Oracle, h: nat, o: OutPoint,
                                    m: OutPoint)
    requires Acceptable(s, req, orc) && Requested(rank, s, t, req, orc) && IsRanking(rank)
    requires HasVoted(t.cands, h, o, m) && !HasVoted(s.cands, h, o, m)
    ensures 1 <= rank(o, m) <= 10 && forall j :: !HasVoted(s.cands, j, o, m)
    ensures (h == req.txid && m == orc.me && orc.isSafenode && orc.utxoKnown(o) && orc.canSign(o) &&
             Vote(h, o, m) in t.votes) || (Vote(h, o, m) in s.orphans && orc.voteValid(Vote(h, o, m)))
  {
    assert GainOk(rank, s, t, Vote(h, o, m), req.txid, orc);
  }

  /** Locks gained then are of candidates with six votes on every input that meet no conflict elsewhere; no
      lock goes or changes. */
  lemma {:induction false} NewLocks(rank: Ranking, s: Held, t: Held, req: Request, orc: Oracle, o: OutPoint)
    requires Acceptable(s, req, orc) && Requested(rank, s, t, req, orc)
    ensures o in s.locked ==> o in t.locked && t.locked[o] == s.locked[o]
    ensures o in t.locked && o !in s.locked ==>
              var h := t.locked[o];
              && h in t.cands && o in t.cands[h].locks && orc.resolves(h)
              && forall p :: p in t.cands[h].locks ==> |t.cands[h].locks[p]| >= 6
  {
    assert Grew(WithCandidate(s, req).cands, s.locked, t.cands, t.locked);
    assert o in t.locked && o !in s.locked ==>
        OwnerOk(t.cands, t.locked, Gainers(s.cands, t.cands) + iset{req.txid}, orc, o);
  }

  /** This node votes for a candidate only as a safenode, where it is eligible, knows the output, can sign, and
      has not voted for any candidate; and remembers just the votes it casts. */
  lemma {:induction false} CastWhen(rank: Ranking, s: Held, t: Held, h: nat, orc: Oracle, v: Vote)
    requires HasCast(rank, s, t, h, orc) && IsRanking(rank)
    ensures Holds(t.cands, v) && !Holds(s.cands, v) ==>
              v.txHash == h && v.safenode == orc.me && orc.isSafenode && 1 <= rank(v.outpoint, orc.me) <= 10 &&
              orc.utxoKnown(v.outpoint) && orc.canSign(v.outpoint) && v in t.votes &&
              forall j :: !HasVoted(s.cands, j, v.outpoint, orc.me)
    ensures v in t.votes && v !in s.votes ==> Holds(t.cands, v) && !Holds(s.cands, v)
    ensures Holds(s.cands, v) ==> Holds(t.cands, v)
    ensures t.orphans == s.orphans && t.locked == s.locked && t.accepted == s.accepted && t.rejected == s.rejected
  {
    if Holds(t.cands, v) && !Holds(s.cands, v) {
      assert Vote(v.txHash, v.outpoint, v.safenode) == v;
      assert Unvoted(s.cands, v.outpoint, v.safenode);
    }
  }

  /** A lock is completed only for a candidate with six votes on every input that meets no conflict elsewhere. */
  lemma {:induction false} CompletedWhen(cands: Candidates, locked: map<OutPoint, nat>, h: nat, orc: Oracle,
                                         o: OutPoint)
    requires h in cands && Completed(cands, locked, h, orc) != locked
    ensures orc.resolves(h) && cands[h].locks != map[] && (o in cands[h].locks ==> |cands[h].locks[o]| >= 6)
    ensures var l := Completed(cands, locked, h, orc);
            o in l <==> o in locked || o in cands[h].locks
  {
    assert o in cands[h].locks ==> IsReady(cands[h].locks[o]);
  }
}
