/** Coin records: what is left of a transaction's outputs. */
module CoinsData {
  import opened Wrappers

  datatype TxOut = TxOut(nValue: int, scriptPubKey: seq<byte>)
  {
    predicate IsNull() { nValue == -1 }
  }

  const NULL_OUT := TxOut(-1, [])

  datatype Coins = Coins(fCoinBase: bool, vout: seq<TxOut>, nHeight: int, nVersion: int)
  {
    predicate IsPruned() { forall k :: 0 <= k < |vout| ==> vout[k].IsNull() }
    predicate IsAvailable(nPos: nat) { nPos < |vout| && !vout[nPos].IsNull() }
  }

  const EMPTY_COINS := Coins(false, [], 0, 0)

  /** The outputs up to the last unspent one. */
  function Trim(vout: seq<TxOut>): (r: seq<TxOut>)
    ensures r <= vout
    ensures r != [] ==> !r[|r| - 1].IsNull()
    ensures forall k :: |r| <= k < |vout| ==> vout[k].IsNull()
  {
    if vout != [] && vout[|vout| - 1].IsNull() then Trim(vout[..|vout| - 1]) else vout
  }

  function Cleaned(c: Coins): Coins { c.(vout := Trim(c.vout)) }

  predicate IsClean(c: Coins) { c.vout == [] || !c.vout[|c.vout| - 1].IsNull() }

  /** What a record says about the unspent set: a pruned one counts as absent. */
  function Norm(c: Coins): Option<Coins> { if c.IsPruned() then None else Some(Cleaned(c)) }

  /** The loop of Cleanup. */
  method Cleanup(c: Coins) returns (r: Coins)
    ensures r == Cleaned(c)
  {
    var vout := c.vout;
    while |vout| > 0 && vout[|vout| - 1].IsNull()
      invariant Trim(vout) == Trim(c.vout)
    {
      vout := vout[..|vout| - 1];
    }
    r := c.(vout := vout);
  }

  /** Cleaning up changes nothing an observer of single outputs can see, and a clean record
      is pruned just when it has no outputs at all. */
  lemma CleanedSame(c: Coins)
    ensures IsClean(Cleaned(c))
    ensures forall n: nat :: Cleaned(c).IsAvailable(n) <==> c.IsAvailable(n)
    ensures forall n: nat :: c.IsAvailable(n) ==> Cleaned(c).vout[n] == c.vout[n]
    ensures Cleaned(c).IsPruned() == c.IsPruned()
    ensures c.IsPruned() <==> Cleaned(c).vout == []
    ensures IsClean(c) ==> Cleaned(c) == c
  {
  }

  /** CCoins::Spend. */
  method Spend(c: Coins, nPos: nat) returns (ok: bool, r: Coins)
    ensures ok == c.IsAvailable(nPos) == (nPos < |c.vout| && c.vout[nPos].nValue != -1)
    ensures !ok ==> r == c
    ensures ok ==> IsClean(r) && r.fCoinBase == c.fCoinBase && r.nHeight == c.nHeight && r.nVersion == c.nVersion
    ensures ok ==> forall n: nat :: r.IsAvailable(n) <==> c.IsAvailable(n) && n != nPos
    ensures ok ==> forall n: nat :: r.IsAvailable(n) && c.IsAvailable(n) ==> r.vout[n] == c.vout[n]
    ensures ok && nPos < |r.vout| ==> r.vout[nPos] == TxOut(-1, [])
  {
    if nPos >= |c.vout| || c.vout[nPos].IsNull() {
      return false, c;
    }
    var d := c.(vout := c.vout[nPos := NULL_OUT]);
    CleanedSame(d);
    r := Cleanup(d);
    ok := true;
  }
}
