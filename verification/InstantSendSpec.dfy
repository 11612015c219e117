/** InstantSend as values: safenodes vote, per spent outpoint, for one transaction; six of the ten
    eligible votes on every outpoint complete its lock.

    Which safenodes are eligible for an outpoint comes from an uninterpreted ranking; the
    answers of the network, the wallet, the mempool and the clock come from an `Oracle`. */
module InstantSendSpec {
  import opened Sets

  const SIGNATURES_REQUIRED := 6
  const SIGNATURES_TOTAL := 10

  datatype OutPoint = OutPoint(hash: nat, n: nat)

  /** A vote is identified by the three fields its hash is taken of. */
  datatype Vote = Vote(txHash: nat, outpoint: OutPoint, safenode: OutPoint)

  datatype Request = Request(txid: nat, vin: seq<OutPoint>)

  /** COutPointLock: the votes on one outpoint, by safenode. */
  type Lock = map<OutPoint, Vote>

  datatype Candidate = Candidate(request: Request, locks: map<OutPoint, Lock>)

  datatype Oracle = Oracle(
    requestValid: (Request, bool) -> bool, voteValid: Vote -> bool, notSpamming: Vote -> bool,
    utxoKnown: OutPoint -> bool, canSign: OutPoint -> bool, resolves: nat -> bool,
    active: bool, isSafenode: bool, me: OutPoint)

  type Ranking = (OutPoint, OutPoint) -> int

  // ---------------------------------------------------------------- reading the maps

  predicate Eligible(rank: Ranking, o: OutPoint, m: OutPoint) {
    rank(o, m) != -1 && rank(o, m) <= SIGNATURES_TOTAL
  }

  /** What is known of GetSafenodeRank: -1 or a place from 1 on, no place twice. */
  ghost predicate IsRanking(rank: Ranking) {
    && (forall o, m :: rank(o, m) == -1 || rank(o, m) >= 1)
    && (forall o, m, k {:trigger rank(o, m), rank(o, k)} :: rank(o, m) == rank(o, k) != -1 ==> m == k)
  }

  type Candidates = map<nat, Candidate>

  predicate HasVoted(cands: Candidates, h: nat, o: OutPoint, m: OutPoint) {
    h in cands && o in cands[h].locks && m in cands[h].locks[o]
  }

  predicate IsReady(l: Lock) { |l| >= SIGNATURES_REQUIRED }

  predicate AllReady(c: Candidate) {
    c.locks != map[] && forall o :: o in c.locks ==> IsReady(c.locks[o])
  }

  /** The candidate of its transaction holds this vote. */
  predicate Holds(cands: Candidates, v: Vote) { HasVoted(cands, v.txHash, v.outpoint, v.safenode) }

  predicate VoteIsValid(rank: Ranking, v: Vote, orc: Oracle) {
    Eligible(rank, v.outpoint, v.safenode) && orc.voteValid(v)
  }

  predicate HasOutPoint(cands: Candidates, h: nat, o: OutPoint) { h in cands && o in cands[h].locks }

  function WithVote(cands: Candidates, v: Vote): Candidates
    requires HasOutPoint(cands, v.txHash, v.outpoint)
  {
    var c := cands[v.txHash];
    cands[v.txHash := c.(locks := c.locks[v.outpoint := c.locks[v.outpoint][v.safenode := v]])]
  }

  // ---------------------------------------------------------------- invariant

  /** A candidate is kept under its own hash and collects votes for the inputs of its request. */
  ghost predicate WellFormed(cands: Candidates) {
    forall h :: h in cands ==> cands[h].request.txid == h && VinIsLocks(cands[h])
  }

  ghost predicate VinIsLocks(c: Candidate) {
    forall o :: o in c.request.vin <==> o in c.locks
  }

  ghost predicate VotersEligible(rank: Ranking, cands: Candidates) {
    forall h, o, m :: HasVoted(cands, h, o, m) ==> Eligible(rank, o, m)
  }

  /** mapVotedOutpoints covers every candidate that holds a vote on the outpoint. */
  ghost predicate Covered(cands: Candidates, voted: map<OutPoint, set<nat>>) {
    forall h, o, m :: HasVoted(cands, h, o, m) ==> o in voted && h in voted[o]
  }

  /** ... and names candidates only, so that looking one of them up never fails. */
  ghost predicate NamesCandidates(cands: Candidates, voted: map<OutPoint, set<nat>>) {
    forall o, h :: o in voted && h in voted[o] ==> h in cands
  }

  /** No safenode's vote on an outpoint counts for two candidates. */
  ghost predicate OneVoteEach(cands: Candidates) {
    forall h, k, o, m :: HasVoted(cands, h, o, m) && HasVoted(cands, k, o, m) ==> h == k
  }

  /** Every lock belongs to a candidate that spends the outpoint and has all its votes. */
  ghost predicate LocksReady(cands: Candidates, locked: map<OutPoint, nat>) {
    forall o :: o in locked ==> HasOutPoint(cands, locked[o], o) && AllReady(cands[locked[o]])
  }

  /** Each vote is stored under its own transaction, outpoint and safenode. */
  ghost predicate VotesInPlace(cands: Candidates) {
    forall h, o, m :: HasVoted(cands, h, o, m) ==> cands[h].locks[o][m] == Vote(h, o, m)
  }

  ghost predicate Inv(rank: Ranking, cands: Candidates, voted: map<OutPoint, set<nat>>, locked: map<OutPoint, nat>) {
    && WellFormed(cands) && VotesInPlace(cands) && VotersEligible(rank, cands)
    && Covered(cands, voted) && NamesCandidates(cands, voted)
    && OneVoteEach(cands) && LocksReady(cands, locked)
  }

  /** So nothing is stored with the candidates but who has voted where. */
  lemma {:induction false} CandidatesAre(c0: Candidates, c1: Candidates)
    requires VotesInPlace(c0) && VotesInPlace(c1) && c0.Keys == c1.Keys
    requires forall h :: h in c0 ==> c0[h].request == c1[h].request
    requires forall h, o :: HasOutPoint(c0, h, o) <==> HasOutPoint(c1, h, o)
    requires forall h, o, m :: HasVoted(c0, h, o, m) <==> HasVoted(c1, h, o, m)
    ensures c0 == c1
  {
    forall h | h in c0 ensures c0[h] == c1[h] {
      var l0, l1 := c0[h].locks, c1[h].locks;
      forall o ensures o in l0 <==> o in l1 {
        assert HasOutPoint(c0, h, o) <==> HasOutPoint(c1, h, o);
      }
      forall o | o in l0 ensures l0[o] == l1[o] {
        forall m ensures m in l0[o] <==> m in l1[o]
                 ensures m in l0[o] ==> l0[o][m] == l1[o][m] {
          assert HasVoted(c0, h, o, m) <==> HasVoted(c1, h, o, m);
        }
      }
      assert l0 == l1;
    }
  }

  // ---------------------------------------------------------------- quorum intersection

  /** At most ten safenodes are eligible for an outpoint. */
  lemma EligibleSize(rank: Ranking, o: OutPoint, ms: set<OutPoint>)
    requires IsRanking(rank) && forall m :: m in ms ==> Eligible(rank, o, m)
    ensures |ms| <= 10
  {
    RanksSize(rank, o, ms, SIGNATURES_TOTAL);
  }

  lemma {:induction false} RanksSize(rank: Ranking, o: OutPoint, ms: set<OutPoint>, n: nat)
    requires IsRanking(rank) && forall m :: m in ms ==> 1 <= rank(o, m) <= n
    ensures |ms| <= n
  {
    if ms != {} {
      var x :| x in ms;
      assert 1 <= rank(o, x) <= n;
      if m :| m in ms && rank(o, m) == n {
        forall k | k in ms - {m} ensures 1 <= rank(o, k) <= n - 1 {
          assert rank(o, k) != rank(o, m);
        }
        RanksSize(rank, o, ms - {m}, n - 1);
      } else {
        RanksSize(rank, o, ms, n - 1);
      }
    }
  }

  /** Two candidates that spend the same outpoint are never both ready on it. */
  lemma NoTwoReady(rank: Ranking, cands: Candidates, h: nat, k: nat, o: OutPoint)
    requires IsRanking(rank) && VotersEligible(rank, cands) && OneVoteEach(cands)
    requires HasOutPoint(cands, h, o) && HasOutPoint(cands, k, o) && h != k
    ensures !(IsReady(cands[h].locks[o]) && IsReady(cands[k].locks[o]))
  {
    var a, b := cands[h].locks[o].Keys, cands[k].locks[o].Keys;
    forall m | m in a + b ensures Eligible(rank, o, m) {
      assert HasVoted(cands, h, o, m) || HasVoted(cands, k, o, m);
    }
    forall m | m in a ensures m !in b {
      assert HasVoted(cands, h, o, m);
      assert m in b ==> HasVoted(cands, k, o, m);
    }
    EligibleSize(rank, o, a + b);
    assert |a + b| == |a| + |b|;
    assert |a| == |cands[h].locks[o]| && |b| == |cands[k].locks[o]|;
  }

  /** So a ready candidate never meets a completed lock of another one: the conflict that
      ResolveConflicts guards against cannot arise. */
  lemma ReadyMeetsNoLock(rank: Ranking, cands: Candidates, voted: map<OutPoint, set<nat>>, locked: map<OutPoint, nat>,
                         h: nat, o: OutPoint)
    requires IsRanking(rank) && Inv(rank, cands, voted, locked)
    requires HasOutPoint(cands, h, o) && AllReady(cands[h]) && o in locked
    ensures locked[o] == h
  {
    if locked[o] != h {
      NoTwoReady(rank, cands, h, locked[o], o);
    }
  }

  // ---------------------------------------------------------------- steps on the maps

  /** No other candidate already holds this safenode's vote on this outpoint. */
  ghost predicate Unopposed(cands: Candidates, v: Vote) {
    forall h :: h != v.txHash ==> !HasVoted(cands, h, v.outpoint, v.safenode)
  }

  /** Counting an eligible, unopposed vote that is marked in mapVotedOutpoints. */
  lemma WithVoteKeeps(rank: Ranking, cands: Candidates, voted: map<OutPoint, set<nat>>, locked: map<OutPoint, nat>,
                      v: Vote)
    requires Inv(rank, cands, voted, locked) && HasOutPoint(cands, v.txHash, v.outpoint)
    requires Eligible(rank, v.outpoint, v.safenode) && Unopposed(cands, v)
    requires v.outpoint in voted && v.txHash in voted[v.outpoint]
    ensures Inv(rank, WithVote(cands, v), voted, locked)
  {
    var after := WithVote(cands, v);
    WithVoteVotes(cands, v);
    forall o | o in locked ensures HasOutPoint(after, locked[o], o) && AllReady(after[locked[o]]) {
      assert HasOutPoint(cands, locked[o], o) && AllReady(cands[locked[o]]);
      WithVoteReady(cands, v, locked[o]);
    }
  }

  lemma WithVoteVotes(cands: Candidates, v: Vote)
    requires HasOutPoint(cands, v.txHash, v.outpoint)
    ensures forall h, o, m :: HasVoted(WithVote(cands, v), h, o, m)
                         <==> HasVoted(cands, h, o, m) || Vote(h, o, m) == Vote(v.txHash, v.outpoint, v.safenode)
    ensures forall h, o :: HasOutPoint(WithVote(cands, v), h, o) <==> HasOutPoint(cands, h, o)
  {
  }

  lemma WithVoteReady(cands: Candidates, v: Vote, h: nat)
    requires HasOutPoint(cands, v.txHash, v.outpoint) && h in cands && AllReady(cands[h])
    ensures h in WithVote(cands, v) && AllReady(WithVote(cands, v)[h])
  {
    var after := WithVote(cands, v);
    forall o | o in after[h].locks ensures IsReady(after[h].locks[o]) {
      assert IsReady(cands[h].locks[o]);
      if h == v.txHash && o == v.outpoint {
        var l := cands[h].locks[o];
        assert l[v.safenode := v].Keys == l.Keys + {v.safenode};
        assert |l[v.safenode := v].Keys| >= |l.Keys|;
      }
    }
    assert v.outpoint in after[v.txHash].locks;
  }

  function Mark(voted: map<OutPoint, set<nat>>, o: OutPoint, h: nat): map<OutPoint, set<nat>> {
    voted[o := (if o in voted then voted[o] else {}) + {h}]
  }

  lemma MarkKeeps(rank: Ranking, cands: Candidates, voted: map<OutPoint, set<nat>>, locked: map<OutPoint, nat>,
                  o: OutPoint, h: nat)
    requires Inv(rank, cands, voted, locked) && h in cands
    ensures Inv(rank, cands, Mark(voted, o, h), locked)
  {
  }

  /** A new candidate, with no votes. */
  lemma CreateKeeps(rank: Ranking, cands: Candidates, voted: map<OutPoint, set<nat>>, locked: map<OutPoint, nat>,
                    c: Candidate)
    requires Inv(rank, cands, voted, locked) && c.request.txid !in cands && VinIsLocks(c)
    requires forall o :: o in c.locks ==> c.locks[o] == map[]
    ensures Inv(rank, cands[c.request.txid := c], voted, locked)
  {
    var after := cands[c.request.txid := c];
    forall h, o, m ensures HasVoted(after, h, o, m) <==> HasVoted(cands, h, o, m) {
    }
    forall o | o in locked ensures HasOutPoint(after, locked[o], o) && AllReady(after[locked[o]]) {
      assert HasOutPoint(cands, locked[o], o);
    }
  }

  /** What later steps never take back. */
  ghost predicate Grew(c0: Candidates, l0: map<OutPoint, nat>, c1: Candidates, l1: map<OutPoint, nat>) {
    && (forall h :: h in c0 ==> h in c1 && c1[h].request == c0[h].request)
    && (forall h, o :: HasOutPoint(c0, h, o) ==> HasOutPoint(c1, h, o))
    && (forall h, o, m :: HasVoted(c0, h, o, m) ==> HasVoted(c1, h, o, m))
    && (forall o :: o in l0 ==> o in l1 && l1[o] == l0[o])
  }

  lemma GrewTrans(c0: Candidates, l0: map<OutPoint, nat>, c1: Candidates, l1: map<OutPoint, nat>,
                  c2: Candidates, l2: map<OutPoint, nat>)
    requires Grew(c0, l0, c1, l1) && Grew(c1, l1, c2, l2)
    ensures Grew(c0, l0, c2, l2)
  {
  }

  lemma WithVoteGrew(cands: Candidates, locked: map<OutPoint, nat>, v: Vote)
    requires HasOutPoint(cands, v.txHash, v.outpoint)
    ensures Grew(cands, locked, WithVote(cands, v), locked)
  {
    WithVoteVotes(cands, v);
  }

  /** The candidate made for a request: no votes on any of its inputs. */
  function NewCandidate(req: Request): Candidate { Candidate(req, NoVotes(req.vin)) }

  function NoVotes(vin: seq<OutPoint>): (r: map<OutPoint, Lock>)
    ensures forall o :: o in r <==> o in vin
    ensures forall o :: o in vin ==> r[o] == map[]
  {
    map o | o in vin :: map[]
  }

  lemma {:induction false} NoVotesNext(vin: seq<OutPoint>, i: nat, locks: map<OutPoint, Lock>)
    requires i < |vin| && locks == NoVotes(vin[i + 1..])
    ensures NoVotes(vin[i..]) == if vin[i] in locks then locks else locks[vin[i] := map[]]
  {
    assert vin[i..] == [vin[i]] + vin[i + 1..];
    assert forall o :: o in vin[i..] <==> o == vin[i] || o in vin[i + 1..];
  }

  function OrphansFor(votes: set<Vote>, h: nat, o: OutPoint): set<Vote> {
    set v | v in votes && v.txHash == h && v.outpoint == o
  }

  predicate EnoughOrphans(votes: set<Vote>, h: nat, o: OutPoint) { |OrphansFor(votes, h, o)| >= SIGNATURES_REQUIRED }

  predicate AllEnough(votes: set<Vote>, req: Request) {
    forall o :: o in req.vin ==> EnoughOrphans(votes, req.txid, o)
  }

  /** Whether a candidate named in mapVotedOutpoints for `o`, other than `except`, holds the vote of `m` on it. */
  predicate Marked(cands: Candidates, voted: map<OutPoint, set<nat>>, o: OutPoint, m: OutPoint, except: set<nat>) {
    o in voted && exists h :: h in voted[o] && h !in except && HasVoted(cands, h, o, m)
  }

  /** What the code looks at before it counts a vote on a known candidate, in any state. */
  predicate CountsNow(cands: Candidates, voted: map<OutPoint, set<nat>>, v: Vote) {
    && HasOutPoint(cands, v.txHash, v.outpoint) && !HasVoted(cands, v.txHash, v.outpoint, v.safenode)
    && !Marked(cands, voted, v.outpoint, v.safenode, {v.txHash})
  }

  /** Whether a vote on a known candidate counts: whether it is its safenode's first on the outpoint. */
  ghost predicate Countable(cands: Candidates, v: Vote) {
    HasOutPoint(cands, v.txHash, v.outpoint) && Unvoted(cands, v.outpoint, v.safenode)
  }

  predicate VotedFor(cands: Candidates, o: OutPoint, m: OutPoint) {
    exists j :: j in cands && HasVoted(cands, j, o, m)
  }

  /** No candidate holds the vote of safenode `m` on outpoint `o`. */
  ghost predicate Unvoted(cands: Candidates, o: OutPoint, m: OutPoint) { forall j :: !HasVoted(cands, j, o, m) }

  ghost predicate SameOutPoints(c0: Candidates, c1: Candidates) {
    c0.Keys == c1.Keys && forall k, o :: HasOutPoint(c1, k, o) <==> HasOutPoint(c0, k, o)
  }
}
