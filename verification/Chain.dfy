/** The block tree with its skip links, and the active chain kept as an array. */
module Chain {
  import opened Bits
  import opened ChainSkips

  // ---- the tree ----

  /** Following pprev, heights count down to 0 at the genesis block. */
  predicate Linked(b: CBlockIndex)
    decreases b.nHeight
  {
    if b.pprev == null then b.nHeight == 0 else b.nHeight == b.pprev.nHeight + 1 && Linked(b.pprev)
  }

  /** The ancestor found by following pprev. */
  function Ancestor(b: CBlockIndex, h: nat): (a: CBlockIndex)
    requires Linked(b) && h <= b.nHeight
    ensures Linked(a) && a.nHeight == h
    decreases b.nHeight
  {
    if h == b.nHeight then b else Ancestor(b.pprev, h)
  }

  lemma {:induction false} AncestorOfAncestor(b: CBlockIndex, h: nat, g: nat)
    requires Linked(b) && g <= h <= b.nHeight
    ensures Ancestor(Ancestor(b, h), g) == Ancestor(b, g)
    decreases b.nHeight
  {
    if h < b.nHeight { AncestorOfAncestor(b.pprev, h, g); }
  }

  ghost predicate SkipOk(b: CBlockIndex)
    requires Linked(b)
    reads b
  {
    b.pskip == null || (b.nHeight > 0 && GetSkipHeight(b.nHeight) < b.nHeight &&
                        b.pskip == Ancestor(b, GetSkipHeight(b.nHeight)))
  }

  /** A set of blocks with their ancestors, every skip link unset or as BuildSkip sets it. */
  ghost predicate Tree(s: set<CBlockIndex>)
    reads s
  {
    forall b :: b in s ==> Linked(b) && SkipOk(b) && (b.pprev != null ==> b.pprev in s)
  }

  lemma {:induction false} AncestorIn(s: set<CBlockIndex>, b: CBlockIndex, h: nat)
    requires Tree(s) && b in s && h <= b.nHeight
    ensures Ancestor(b, h) in s
    decreases b.nHeight
  {
    if h < b.nHeight { AncestorIn(s, b.pprev, h); }
  }

  /** Every block but a genesis block has its skip link. */
  ghost predicate Skipping(s: set<CBlockIndex>)
    reads s
  {
    forall b :: b in s && b.pprev != null ==> b.pskip != null
  }

  class CBlockIndex {
    const pprev: CBlockIndex?
    const nHeight: nat
    var pskip: CBlockIndex?

    constructor (prev: CBlockIndex?)
      ensures pprev == prev && pskip == null
      ensures nHeight == if prev == null then 0 else prev.nHeight + 1
      ensures prev == null || Linked(prev) ==> Linked(this)
    {
      pprev := prev;
      nHeight := if prev == null then 0 else prev.nHeight + 1;
      pskip := null;
    }

    /** The skip search finds the block that following pprev finds; with all skip links set, going back
        fewer than 2^(n+1) blocks it follows at most n^2/4 + 7n + 1 links. */
    method GetAncestor(height: int, ghost s: set<CBlockIndex>) returns (r: CBlockIndex?, ghost links: nat)
      requires Tree(s) && this in s
      ensures height > nHeight || height < 0 ==> r == null
      ensures 0 <= height <= nHeight ==> r == Ancestor(this, height)
      ensures 0 <= height <= nHeight && Skipping(s) ==>
                links == Links(nHeight, height) &&
                forall n: nat :: nHeight - height < Pow2(n + 1) ==> links <= n * n / 4 + 7 * n + 1
    {
      links := 0;
      if height > nHeight || height < 0 { return null, 0; }
      ghost var full := Skipping(s);
      var pindexWalk: CBlockIndex := this;
      var heightWalk: nat := nHeight;
      while heightWalk > height
        invariant height <= heightWalk <= nHeight && pindexWalk in s
        invariant pindexWalk == Ancestor(this, heightWalk)
        invariant full ==> Counted(links, heightWalk, nHeight, height)
        decreases heightWalk
      {
        var heightSkip := GetSkipHeight(heightWalk);
        var heightSkipPrev := GetSkipHeight(heightWalk - 1);
        var skips := heightSkip == height ||
                     (heightSkip > height && !(heightSkipPrev < heightSkip - 2 && heightSkipPrev >= height));
        CountLink(links, heightWalk, nHeight, height, heightSkip, heightSkipPrev, skips);
        links := links + 1;
        if pindexWalk.pskip != null && skips {
          AncestorIn(s, pindexWalk, heightSkip);
          AncestorOfAncestor(this, heightWalk, heightSkip);
          pindexWalk := pindexWalk.pskip;
          heightWalk := heightSkip;
        } else {
          assert pindexWalk.pprev != null && (full ==> !skips);
          AncestorOfAncestor(this, heightWalk, heightWalk - 1);
          pindexWalk := pindexWalk.pprev;
          heightWalk := heightWalk - 1;
        }
      }
      r := pindexWalk;
      LinksFew(nHeight, height);
    }

    method BuildSkip(ghost s: set<CBlockIndex>)
      requires Tree(s) && this !in s && Linked(this) && pskip == null && (pprev != null ==> pprev in s)
      modifies this`pskip
      ensures Tree(s + {this}) && (Skipping(s) ==> Skipping(s + {this}))
      ensures pprev != null ==> GetSkipHeight(nHeight) < nHeight && pskip == Ancestor(this, GetSkipHeight(nHeight))
    {
      if pprev != null {
        SkipsBack(nHeight);
        ghost var links;
        pskip, links := pprev.GetAncestor(GetSkipHeight(nHeight), s);
      }
      forall b | b in s + {this}
        ensures Linked(b) && SkipOk(b) && (b.pprev != null ==> b.pprev in s + {this})
      {
        if b != this { assert b in s; }
      }
    }
  }

  // ---- the active chain ----

  class CChain {
    var vChain: seq<CBlockIndex?>

    /** The chain is some block and its ancestors, each at its height. */
    ghost predicate Consistent()
      reads this
    {
      forall i :: 0 <= i < |vChain| ==> IsAt(vChain, i)
    }

    function Get(nHeight: int): CBlockIndex?
      reads this
    {
      if nHeight < 0 || nHeight >= |vChain| then null else vChain[nHeight]
    }

    predicate Contains(b: CBlockIndex)
      reads this
    {
      Get(b.nHeight) == b
    }

    function Height(): int
      reads this
    {
      |vChain| - 1
    }

    function Tip(): CBlockIndex?
      reads this
    {
      if |vChain| > 0 then vChain[|vChain| - 1] else null
    }

    /** Stops at the first block that is already in place: everything below it is, too. */
    method SetTip(tip: CBlockIndex?)
      requires Consistent() && (tip != null ==> Linked(tip))
      modifies this
      ensures Consistent()
      ensures tip == null ==> vChain == []
      ensures tip != null ==> |vChain| == tip.nHeight + 1
      ensures tip != null ==> forall i :: 0 <= i <= tip.nHeight ==> vChain[i] == Ancestor(tip, i)
    {
      if tip == null {
        vChain := [];
        return;
      }
      ghost var was := vChain;
      vChain := Resized(vChain, tip.nHeight + 1);
      var pindex: CBlockIndex? := tip;
      while pindex != null && vChain[pindex.nHeight] != pindex
        invariant |vChain| == tip.nHeight + 1
        invariant pindex != null ==> pindex.nHeight <= tip.nHeight && pindex == Ancestor(tip, pindex.nHeight)
        invariant forall i :: (if pindex == null then 0 else pindex.nHeight + 1) <= i <= tip.nHeight ==>
                    vChain[i] == Ancestor(tip, i)
        invariant pindex != null ==> forall i :: 0 <= i <= pindex.nHeight ==>
                    vChain[i] == if i < |was| then was[i] else null
        decreases if pindex == null then -1 else pindex.nHeight
      {
        if pindex.nHeight > 0 { AncestorOfAncestor(tip, pindex.nHeight, pindex.nHeight - 1); }
        vChain := vChain[pindex.nHeight := pindex];
        pindex := pindex.pprev;
      }
      if pindex != null {
        forall i | 0 <= i <= pindex.nHeight
          ensures vChain[i] == Ancestor(tip, i)
        {
          AllAncestors(was, pindex.nHeight, i);
          AncestorOfAncestor(tip, pindex.nHeight, i);
        }
      }
      forall i | 0 <= i < |vChain|
        ensures IsAt(vChain, i)
      {
        if i > 0 { AncestorOfAncestor(tip, i, i - 1); }
      }
    }

    /** No ancestor of a block from height lo up is in the chain. */
    ghost predicate NoneFrom(b: CBlockIndex, lo: nat)
      requires Linked(b)
      reads this
    {
      forall h :: lo <= h <= b.nHeight && h < |vChain| ==> vChain[h] != Ancestor(b, h)
    }

    /** The last block that is both in the chain and on the branch of pindex. */
    method FindFork(start: CBlockIndex?, ghost s: set<CBlockIndex>) returns (r: CBlockIndex?)
      requires Consistent() && Tree(s) && (start != null ==> start in s)
      ensures start == null ==> r == null
      ensures start != null && r == null ==> forall h :: 0 <= h <= start.nHeight && h < |vChain| ==>
                                               vChain[h] != Ancestor(start, h)
      ensures start != null && r != null ==>
                r.nHeight <= start.nHeight && r == Ancestor(start, r.nHeight) && r.nHeight < |vChain| &&
                vChain[r.nHeight] == r &&
                forall h :: r.nHeight < h <= start.nHeight && h < |vChain| ==> vChain[h] != Ancestor(start, h)
    {
      if start == null { return null; }
      var pindex: CBlockIndex? := start;
      if start.nHeight > Height() {
        ghost var links;
        pindex, links := start.GetAncestor(Height(), s);
        NoneAbove(start, Height() + 1);
      }
      while pindex != null && !Contains(pindex)
        invariant pindex != null ==> pindex.nHeight <= start.nHeight && pindex == Ancestor(start, pindex.nHeight)
        invariant NoneFrom(start, if pindex == null then 0 else pindex.nHeight + 1)
        decreases if pindex == null then -1 else pindex.nHeight
      {
        OneMoreOff(start, pindex);
        pindex := pindex.pprev;
      }
      r := pindex;
    }

    lemma OneMoreOff(b: CBlockIndex, a: CBlockIndex)
      requires Linked(b) && a.nHeight <= b.nHeight && a == Ancestor(b, a.nHeight)
      requires NoneFrom(b, a.nHeight + 1) && !Contains(a)
      ensures NoneFrom(b, a.nHeight)
      ensures a.pprev == null <==> a.nHeight == 0
      ensures a.pprev != null ==> a.pprev.nHeight == a.nHeight - 1 && a.pprev == Ancestor(b, a.nHeight - 1)
    {
      if a.nHeight > 0 { AncestorOfAncestor(b, a.nHeight, a.nHeight - 1); }
    }

    lemma NoneAbove(b: CBlockIndex, lo: nat)
      requires Linked(b) && lo > Height()
      ensures NoneFrom(b, lo)
    {
    }

    /** Below the fork the branch and the chain are one. */
    lemma SharedBelow(b: CBlockIndex, a: CBlockIndex, h: nat)
      requires Consistent() && Linked(b) && h <= a.nHeight <= b.nHeight
      requires a == Ancestor(b, a.nHeight) && a.nHeight < |vChain| && vChain[a.nHeight] == a
      ensures vChain[h] == Ancestor(b, h)
    {
      AllAncestors(vChain, a.nHeight, h);
      AncestorOfAncestor(b, a.nHeight, h);
    }

    /** Straight from the array when the block is in the chain, along the skip links when not. */
    method StepBack(b: CBlockIndex, nHeight: nat, ghost start: CBlockIndex, ghost s: set<CBlockIndex>)
      returns (r: CBlockIndex)
      requires Consistent() && Tree(s) && b in s && start in s && nHeight <= b.nHeight <= start.nHeight
      requires b == Ancestor(start, b.nHeight)
      ensures r in s && r == Ancestor(start, nHeight)
    {
      AncestorOfAncestor(start, b.nHeight, nHeight);
      AncestorIn(s, b, nHeight);
      if Contains(b) {
        AllAncestors(vChain, b.nHeight, nHeight);
        r := Get(nHeight);
      } else {
        ghost var links;
        r, links := b.GetAncestor(nHeight, s);
      }
    }

    /** The block the next turn looks at, and the next step. */
    method NextBack(size: nat, b: CBlockIndex, nStep: int, ghost before: seq<CBlockIndex>, ghost start: CBlockIndex,
                    ghost s: set<CBlockIndex>)
      returns (next: CBlockIndex, nStep': int)
      requires Consistent() && Tree(s) && b in s && start in s && b.nHeight > 0 && size == |before| + 1
      requires IsBegun(before, start, b, nStep)
      ensures next in s && next.nHeight < b.nHeight && IsBegun(before + [b], start, next, nStep')
    {
      assert nStep > 0;
      var nHeight := if b.nHeight - nStep > 0 then b.nHeight - nStep else 0;
      next := StepBack(b, nHeight, start, s);
      Begun(before, start, b, nStep, next);
      nStep' := if size > 10 then nStep * 2 else nStep;
    }

    /** A few blocks back one by one, then in steps that double, then the genesis block. */
    method GetLocator(from: CBlockIndex?, ghost s: set<CBlockIndex>) returns (have: seq<CBlockIndex>)
      requires Consistent() && Tree(s) && (from != null ==> from in s)
      requires forall i :: 0 <= i < |vChain| ==> vChain[i] in s
      ensures var start := if from != null then from else if |vChain| == 0 then null else vChain[|vChain| - 1];
              && (start == null <==> have == [])
              && (start != null ==> IsLocator(have, start))
    {
      var start: CBlockIndex? := from;
      if start == null { start := Tip(); }
      have := [];
      if start != null { have := LocatorFrom(start, s); }
    }

    /** The loop. */
    method LocatorFrom(start: CBlockIndex, ghost s: set<CBlockIndex>) returns (have: seq<CBlockIndex>)
      requires Consistent() && Tree(s) && start in s
      ensures IsLocator(have, start)
    {
      var nStep := 1;
      have := [];
      var pindex := start;
      while true
        invariant pindex in s && IsBegun(have, start, pindex, nStep)
        decreases pindex.nHeight
      {
        ghost var before := have;
        have := have + [pindex];
        if pindex.nHeight == 0 {
          Ended(before, start, pindex, nStep);
          return;
        }
        pindex, nStep := NextBack(|have|, pindex, nStep, before, start, s);
      }
    }
  }

  ghost predicate IsAt(v: seq<CBlockIndex?>, i: nat)
    requires i < |v|
  {
    v[i] != null && v[i].nHeight == i && Linked(v[i]) && (i > 0 ==> v[i].pprev == v[i - 1])
  }

  function Resized(v: seq<CBlockIndex?>, n: nat): (r: seq<CBlockIndex?>)
    ensures |r| == n && forall i :: 0 <= i < n ==> r[i] == if i < |v| then v[i] else null
  {
    if n <= |v| then v[..n] else v + seq(n - |v|, _ => null)
  }

  /** In a consistent chain, every block lies above its ancestors. */
  lemma {:induction false} AllAncestors(v: seq<CBlockIndex?>, h: nat, i: nat)
    requires (forall k :: 0 <= k < |v| ==> IsAt(v, k)) && i <= h < |v|
    ensures IsAt(v, h) && v[i] == Ancestor(v[h], i)
    decreases h
  {
    assert IsAt(v, h);
    if i < h { AllAncestors(v, h - 1, i); }
  }

  /** How far back of its start the n-th block of a locator lies. */
  function Back(n: nat): nat { if n <= 11 then n else 9 + Pow2(n - 10) }

  /** The height of that block, with h that of the start. */
  function BackFrom(h: nat, n: nat): (r: nat)
    ensures r <= h
  {
    if h > Back(n) then h - Back(n) else 0
  }

  /** Ancestors of the start at these heights, down to the genesis block. */
  ghost predicate IsLocator(have: seq<CBlockIndex>, start: CBlockIndex) {
    && Linked(start) && have != [] && have[|have| - 1].nHeight == 0
    && (forall i :: 0 <= i < |have| ==> have[i] == Ancestor(start, BackFrom(start.nHeight, i)))
    && (forall i :: 0 <= i < |have| - 1 ==> have[i].nHeight > 0)
  }

  ghost predicate IsBegun(have: seq<CBlockIndex>, start: CBlockIndex, next: CBlockIndex, nStep: int) {
    && Linked(start) && next == Ancestor(start, BackFrom(start.nHeight, |have|))
    && (forall i :: 0 <= i < |have| ==> have[i] == Ancestor(start, BackFrom(start.nHeight, i)) && have[i].nHeight > 0)
    && nStep == (if |have| <= 10 then 1 else Pow2(|have| - 10))
  }

  lemma NextHeight(h: nat, n: nat, here: nat, nStep: int)
    requires here == BackFrom(h, n) && here > 0 && nStep == if n <= 10 then 1 else Pow2(n - 10)
    ensures (if here - nStep > 0 then here - nStep else 0) == BackFrom(h, n + 1)
    ensures (if n + 1 > 10 then nStep * 2 else nStep) == if n + 1 <= 10 then 1 else Pow2(n + 1 - 10)
  {
  }

  lemma Begun(have: seq<CBlockIndex>, start: CBlockIndex, here: CBlockIndex, nStep: int, next: CBlockIndex)
    requires IsBegun(have, start, here, nStep) && here.nHeight > 0
    requires next == Ancestor(start, if here.nHeight - nStep > 0 then here.nHeight - nStep else 0)
    ensures IsBegun(have + [here], start, next, if |have| + 1 > 10 then nStep * 2 else nStep)
  {
    NextHeight(start.nHeight, |have|, here.nHeight, nStep);
  }

  lemma Ended(have: seq<CBlockIndex>, start: CBlockIndex, here: CBlockIndex, nStep: int)
    requires IsBegun(have, start, here, nStep) && here.nHeight == 0
    ensures IsLocator(have + [here], start)
  {
  }

  lemma {:induction false} BackGrows(m: nat, n: nat)
    requires m < n
    ensures Back(m) < Back(n)
  {
    if n - 1 > m { BackGrows(m, n - 1); }
    if n > 12 { assert Pow2(n - 10) == 2 * Pow2(n - 11); }
    if n == 12 { assert Pow2(2) == 4; }
  }

  /** From the start to the genesis block by way of eleven blocks one back each and then of steps that
      double, in no more blocks than twelve and the logarithm of the height. */
  lemma {:induction false} LocatorSteps(have: seq<CBlockIndex>, start: CBlockIndex, i: nat)
    requires IsLocator(have, start) && i < |have|
    ensures have[0] == start && have[|have| - 1].nHeight == 0 && have[i] == Ancestor(start, have[i].nHeight)
    ensures 1 <= i < |have| - 1 && i <= 11 ==> have[i].nHeight == start.nHeight - i
    ensures 12 <= i < |have| - 1 ==> have[i - 1].nHeight - have[i].nHeight == Pow2(i - 11)
    ensures i > 0 ==> have[i].nHeight < have[i - 1].nHeight
    ensures |have| > 12 ==> Pow2(|have| - 12) <= start.nHeight
  {
    var h, n := start.nHeight, |have|;
    assert have[0] == Ancestor(start, BackFrom(h, 0)) && Back(0) == 0;
    assert have[i] == Ancestor(start, BackFrom(h, i));
    if i > 0 {
      assert have[i - 1].nHeight == BackFrom(h, i - 1) > 0;
      BackGrows(i - 1, i);
    }
    if i >= 12 { StepBeyond(i); }
    if n > 12 { assert have[n - 2].nHeight == BackFrom(h, n - 2) > 0; EndBeyond(n); }
  }

  lemma StepBeyond(i: nat)
    requires i >= 12
    ensures Back(i) - Back(i - 1) == Pow2(i - 11)
  {
    assert Pow2(i - 10) == 2 * Pow2(i - 11);
    if i == 12 { assert Pow2(1) == 2 * Pow2(0) && Pow2(0) == 1; }
  }

  lemma EndBeyond(n: nat)
    requires n > 12
    ensures Pow2(n - 12) <= Back(n - 2)
  {
    if n == 13 { assert Pow2(1) == 2 * Pow2(0) && Pow2(0) == 1; }
  }
}
