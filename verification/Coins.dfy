/** A stack of write-back coin caches over a database.  Each layer is an object that fills
    and changes its own map; the view it gives is one plain map from transaction id to
    unspent record, in which a pruned record counts as absent. */
module CoinsCache {
  import opened CoinsData
  import opened Wrappers

  datatype Entry = Entry(coins: Coins, fDirty: bool, fFresh: bool)
  type Cache = map<nat, Entry>
  type View = map<nat, Coins>

  function Lookup(v: View, t: nat): Option<Coins> { if t in v then Some(v[t]) else None }

  function Put(v: View, t: nat, c: Option<Coins>): View {
    if c.Some? then v[t := c.value] else v - {t}
  }

  /** `view` is what a cache over `below` stands for. */
  ghost predicate Agrees(view: View, cache: Cache, below: View) {
    forall t :: Lookup(view, t) == if t in cache then Norm(cache[t].coins) else Lookup(below, t)
  }

  /** What an entry may claim of the record `below` it in the next layer: FRESH, that there
      is none; not DIRTY, that it is the same. */
  predicate EntryOk(e: Entry, below: Option<Coins>) {
    && (e.fFresh ==> below.None?)
    && (!e.fDirty ==> Norm(e.coins) == below)
  }

  ghost predicate FlagsOk(cache: Cache, below: View) {
    forall t :: t in cache ==> EntryOk(cache[t], Lookup(below, t))
  }

  ghost predicate AllClean(cache: Cache) {
    forall t :: t in cache ==> IsClean(cache[t].coins)
  }

  // ---------------------------------------------------------------- memory accounting

  /** Memory accounted for by the records of a cache. */
  ghost function Total(m: Cache, usage: Coins -> nat): nat {
    if m == map[] then 0
    else
      var t :| t in m;
      usage(m[t].coins) + Total(m - {t}, usage)
  }

  lemma {:induction false} TotalSplit(m: Cache, usage: Coins -> nat, t: nat)
    requires t in m
    ensures Total(m, usage) == usage(m[t].coins) + Total(m - {t}, usage)
    decreases |m|
  {
    var u :| u in m && Total(m, usage) == usage(m[u].coins) + Total(m - {u}, usage);
    if u != t {
      TotalSplit(m - {u}, usage, t);
      TotalSplit(m - {t}, usage, u);
      assert m - {u} - {t} == m - {t} - {u};
    }
  }

  lemma TotalPut(m: Cache, usage: Coins -> nat, t: nat, e: Entry)
    ensures Total(m[t := e], usage) == usage(e.coins) + Total(m - {t}, usage)
    ensures t !in m ==> m - {t} == m
    ensures t in m ==> Total(m, usage) == usage(m[t].coins) + Total(m - {t}, usage)
  {
    TotalSplit(m[t := e], usage, t);
    assert m[t := e] - {t} == m - {t};
    if t in m { TotalSplit(m, usage, t); } else { assert m - {t} == m; }
  }

  // ---------------------------------------------------------------- merging a child into its parent

  /** What the parent's slot for one id becomes when a dirty child entry is written to it:
      `parent` is the entry it has, if any. */
  function Merge(parent: Option<Entry>, child: Entry): Option<Entry> {
    match parent
    case None =>
      if child.fFresh && child.coins.IsPruned() then None
      else Some(Entry(child.coins, true, child.fFresh))
    case Some(p) =>
      if p.fFresh && child.coins.IsPruned() then None
      else Some(Entry(child.coins, true, p.fFresh))
  }

  function Slot(cache: Cache, t: nat): Option<Entry> { if t in cache then Some(cache[t]) else None }

  function Merged(cache: Cache, t: nat, child: Entry): Cache {
    var r := Merge(Slot(cache, t), child);
    if r.Some? then cache[t := r.value] else cache - {t}
  }

  /** The view through one slot of a cache over a record `below`. */
  function Through(e: Option<Entry>, below: Option<Coins>): Option<Coins> {
    if e.Some? then Norm(e.value.coins) else below
  }

  /** Writing a child entry to the parent gives the parent the child's view of that id and
      leaves a parent entry whose flags are right with respect to the grandparent. */
  lemma MergeKeeps(parent: Option<Entry>, child: Entry, grand: Option<Coins>)
    requires parent.Some? ==> EntryOk(parent.value, grand)
    requires EntryOk(child, Through(parent, grand))
    ensures var r := if child.fDirty then Merge(parent, child) else parent;
            && Through(r, grand) == Norm(child.coins)
            && (r.Some? ==> EntryOk(r.value, grand))
  {
  }

  /** The parent's entry is the child's record, dirty, and FRESH when the grandparent has nothing: as its own
      entry says, or, if it has none, the child's.  A pruned record then goes without a trace. */
  lemma MergeIs(parent: Option<Entry>, child: Entry)
    ensures var fFresh := if parent.Some? then parent.value.fFresh else child.fFresh;
            Merge(parent, child) == if fFresh && child.coins.IsPruned() then None
                                    else Some(Entry(child.coins, true, fFresh))
  {
  }

  // ---------------------------------------------------------------- layers

  class CoinsViewDB {
    var coins: View
    var bestBlock: nat

    ghost predicate Valid()
      reads this
    {
      forall t :: t in coins ==> Clean(coins[t])
    }

    method GetCoins(t: nat) returns (found: bool, c: Coins)
      requires Valid()
      ensures found == (t in coins) && c == (if found then coins[t] else EMPTY_COINS)
      ensures IsClean(c) && Norm(c) == Lookup(coins, t)
    {
      found := t in coins;
      c := if found then coins[t] else EMPTY_COINS;
      CleanedSame(c);
    }

    /** Writes the dirty entries; an empty best block is not written. */
    method BatchWrite(m: Cache, hash: nat)
      requires Valid() && AllClean(m)
      requires forall t :: t in m && !m[t].fDirty ==> Norm(m[t].coins) == Lookup(coins, t)
      modifies this
      ensures Valid() && Agrees(coins, m, old(coins))
      ensures bestBlock == if hash != 0 then hash else old(bestBlock)
    {
      var rest := m;
      while rest != map[]
        invariant Valid() && bestBlock == old(bestBlock)
        invariant Remaining(rest, m) && Partly(coins, m, rest, old(coins))
        decreases |rest|
      {
        var t :| t in rest;
        CleanedSame(rest[t].coins);
        PartlyNext(coins, m, rest, old(coins), t);
        if rest[t].fDirty {
          if rest[t].coins.IsPruned() {
            coins := coins - {t};
          } else {
            coins := coins[t := rest[t].coins];
          }
        }
        rest := rest - {t};
      }
      if hash != 0 {
        bestBlock := hash;
      }
    }
  }

  ghost predicate Clean(c: Coins) { IsClean(c) && !c.IsPruned() }

  ghost predicate Remaining(rest: Cache, m: Cache) {
    forall t :: t in rest ==> t in m && rest[t] == m[t]
  }

  /** `view` after the entries of `m` but those in `rest` have been written over `below`. */
  ghost predicate Partly(view: View, m: Cache, rest: Cache, below: View) {
    forall t :: Lookup(view, t) == if t in m && t !in rest then Norm(m[t].coins) else Lookup(below, t)
  }

  lemma PartlyNext(view: View, m: Cache, rest: Cache, below: View, t: nat)
    requires t in rest && Remaining(rest, m) && Partly(view, m, rest, below)
    ensures Remaining(rest - {t}, m)
    ensures Lookup(view, t) == Lookup(below, t)
    ensures Partly(Put(view, t, Norm(m[t].coins)), m, rest - {t}, below)
    ensures Norm(m[t].coins) == Lookup(below, t) ==> Partly(view, m, rest - {t}, below)
  {
    forall x ensures Lookup(Put(view, t, Norm(m[t].coins)), x)
                  == if x in m && x !in rest - {t} then Norm(m[x].coins) else Lookup(below, x) {
      assert Lookup(view, x) == if x in m && x !in rest then Norm(m[x].coins) else Lookup(below, x);
    }
  }

  /** The entries of `m` but those in `rest` have been merged into `before`: each dirty one into its slot. */
  ghost predicate AllMerged(cache: Cache, m: Cache, rest: Cache, before: Cache) {
    forall t :: Slot(cache, t) == if t in m && t !in rest && m[t].fDirty then Merge(Slot(before, t), m[t])
                                  else Slot(before, t)
  }

  lemma MergedNext(cache: Cache, m: Cache, rest: Cache, before: Cache, t: nat)
    requires t in rest && Remaining(rest, m) && AllMerged(cache, m, rest, before)
    ensures AllMerged(if m[t].fDirty then Merged(cache, t, m[t]) else cache, m, rest - {t}, before)
  {
    var after := if m[t].fDirty then Merged(cache, t, m[t]) else cache;
    forall x
      ensures Slot(after, x) == if x in m && x !in rest - {t} && m[x].fDirty then Merge(Slot(before, x), m[x])
                                else Slot(before, x)
    {
      assert Slot(cache, x) == if x in m && x !in rest && m[x].fDirty then Merge(Slot(before, x), m[x])
                               else Slot(before, x);
    }
  }

  class CoinsViewCache {
    const base: CoinsViewCache?  // the layer below, or null when that is the database
    const db: CoinsViewDB
    const usage: Coins -> nat
    ghost const Repr: set<object>
    ghost const depth: nat

    var hasModifier: bool
    var hashBlock: nat
    var cacheCoins: Cache
    var cachedCoinsUsage: int

    // The fields of the open CCoinsModifier, of which there is at most one: the record it
    // gives access to, and the usage it subtracts at the end.
    var modTx: nat
    var modUsage: nat

    ghost var view: View  // what this layer stands for

    ghost predicate Structure()
      reads this, Repr
      decreases depth
    {
      && this in Repr && db in Repr
      && (base != null ==>
            && base in Repr && base.Repr < Repr && this !in base.Repr && base.depth < depth
            && base.db == db && base.usage == usage && base.Structure())
      && (base == null ==> Repr == {this, db})
    }

    ghost function BaseView(): View
      requires Structure()
      reads this, Repr
    {
      if base == null then db.coins else base.view
    }

    /** Consistent, and with no modifier open in any layer below. */
    ghost predicate Valid()
      requires Structure()
      reads this, Repr
      decreases depth, 1
    {
      BaseValid() && Layer(BaseView())
    }

    ghost predicate BaseValid()
      requires Structure()
      reads this, Repr
      decreases depth, 0
    {
      if base == null then db.Valid() else base.Valid() && !base.hasModifier
    }

    /** The part of consistency that concerns this object alone, over a layer whose view is `below`. */
    ghost predicate Layer(below: View)
      reads this
    {
      && Agrees(view, cacheCoins, below)
      && FlagsOk(cacheCoins, below)
      && AllClean(if hasModifier then cacheCoins - {modTx} else cacheCoins)
      && (hasModifier ==> modTx in cacheCoins && cacheCoins[modTx].fDirty)
      && cachedCoinsUsage == UsageExpected()
    }

    ghost function UsageExpected(): int
      reads this
    {
      if hasModifier then Total(cacheCoins - {modTx}, usage) + modUsage else Total(cacheCoins, usage)
    }

    constructor OnDB(db: CoinsViewDB, usage: Coins -> nat)
      requires db.Valid()
      ensures Structure() && Valid() && !hasModifier && base == null && this.db == db && this.usage == usage
      ensures Repr == {this, db} && view == db.coins && hashBlock == 0 && cacheCoins == map[] && cachedCoinsUsage == 0
    {
      base, this.db, this.usage := null, db, usage;
      Repr, depth := {this, db}, 0;
      hasModifier, hashBlock, cacheCoins, cachedCoinsUsage := false, 0, map[], 0;
      view := db.coins;
      new;
      CleanNorm(db.coins);
    }

    constructor OnCache(base: CoinsViewCache)
      requires base.Structure() && base.Valid() && !base.hasModifier
      ensures Structure() && Valid() && !hasModifier && this.base == base
      ensures Repr == base.Repr + {this} && view == base.view && hashBlock == 0
      ensures cacheCoins == map[] && cachedCoinsUsage == 0
    {
      this.base, db, usage := base, base.db, base.usage;
      Repr, depth := base.Repr + {this}, base.depth + 1;
      hasModifier, hashBlock, cacheCoins, cachedCoinsUsage := false, 0, map[], 0;
      view := base.view;
    }

    /** Whether this layer or one below holds a record of `t`, be it pruned. */
    ghost predicate Knows(t: nat)
      requires Structure()
      reads this, Repr
      decreases depth, 1
    {
      t in cacheCoins || BaseKnows(t)
    }

    ghost predicate BaseKnows(t: nat)
      requires Structure()
      reads this, Repr
      decreases depth, 0
    {
      if base == null then t in db.coins else base.Knows(t)
    }

    /** FetchCoins: bring the record of `t` into this cache, and into every cache below that
        is asked for it.  No layer's view changes. */
    method FetchCoins(t: nat) returns (found: bool)
      requires Structure() && Valid()
      modifies Repr - {db}
      ensures Structure() && Valid() && KeptBut(old(hasModifier), old(modTx), old(modUsage), old(hashBlock))
      ensures view == old(view) && BaseView() == old(BaseView())
      ensures found == (t in cacheCoins) == old(Knows(t))
      ensures Lookup(view, t) == if found then Norm(cacheCoins[t].coins) else None
      ensures cacheCoins == if found then old(cacheCoins)[t := cacheCoins[t]] else old(cacheCoins)
      ensures found ==> cacheCoins[t] == if t in old(cacheCoins) then old(cacheCoins)[t]
                                         else Entry(cacheCoins[t].coins, false, cacheCoins[t].coins.IsPruned())
      ensures !hasModifier ==> cachedCoinsUsage == Total(cacheCoins, usage)
      decreases depth, 1
    {
      if t in cacheCoins {
        assert Lookup(view, t) == Norm(cacheCoins[t].coins);
        return true;
      }
      var tmp;
      found, tmp := BaseGetCoins(t);
      assert Lookup(view, t) == Lookup(BaseView(), t);
      if found {
        Insert(t, tmp, BaseView());
      }
    }

    ghost predicate KeptBut(m: bool, t: nat, u: nat, hash: nat)
      reads this
    {
      hasModifier == m && modTx == t && modUsage == u && hashBlock == hash
    }

    /** base->GetCoins, which may fill the caches below. */
    method BaseGetCoins(t: nat) returns (found: bool, c: Coins)
      requires Structure() && BaseValid()
      modifies Repr - {db, this}
      ensures Structure() && BaseValid() && BaseView() == old(BaseView())
      ensures IsClean(c) && Norm(c) == Lookup(BaseView(), t)
      ensures found == old(BaseKnows(t)) && (!found ==> c == EMPTY_COINS)
      decreases depth, 0
    {
      if base == null {
        found, c := db.GetCoins(t);
      } else {
        found, c := base.GetCoins(t);
        if !found {
          c := EMPTY_COINS;
        }
      }
    }

    method GetCoins(t: nat) returns (found: bool, c: Coins)
      requires Structure() && Valid() && !hasModifier
      modifies Repr - {db}
      ensures Structure() && Valid() && KeptBut(false, old(modTx), old(modUsage), old(hashBlock))
      ensures view == old(view) && BaseView() == old(BaseView())
      ensures found == old(Knows(t)) && (found ==> IsClean(c))
      ensures Lookup(view, t) == if found then Norm(c) else None
      decreases depth, 2
    {
      found := FetchCoins(t);
      c := if found then cacheCoins[t].coins else EMPTY_COINS;
    }

    /** Last part of FetchCoins: an entry for what the layer below answered. */
    method Insert(t: nat, tmp: Coins, ghost below: View)
      requires Layer(below) && t !in cacheCoins && IsClean(tmp) && Norm(tmp) == Lookup(below, t)
      modifies this`cacheCoins, this`cachedCoinsUsage
      ensures Layer(below) && cacheCoins == old(cacheCoins)[t := Entry(tmp, false, tmp.IsPruned())]
    {
      var e := Entry(tmp, false, tmp.IsPruned());
      if hasModifier {
        assert cacheCoins[t := e] - {modTx} == (cacheCoins - {modTx})[t := e];
        TotalPut(cacheCoins - {modTx}, usage, t, e);
      } else {
        TotalPut(cacheCoins, usage, t, e);
      }
      cacheCoins := cacheCoins[t := e];
      cachedCoinsUsage := cachedCoinsUsage + usage(tmp);
    }

    method HaveCoins(t: nat) returns (have: bool)
      requires Structure() && Valid() && !hasModifier
      modifies Repr - {db}
      ensures Structure() && Valid() && KeptBut(false, old(modTx), old(modUsage), old(hashBlock))
      ensures view == old(view) && BaseView() == old(BaseView())
      ensures have <==> t in view
    {
      var found := FetchCoins(t);
      if found { CleanedSame(cacheCoins[t].coins); }
      have := found && cacheCoins[t].coins.vout != [];
    }

    /** Opens a modifier on the record of `t`, which is marked dirty from now on. */
    method ModifyCoins(t: nat)
      requires Structure() && Valid() && !hasModifier
      modifies Repr - {db}
      ensures Structure() && Valid() && hasModifier && modTx == t && hashBlock == old(hashBlock)
      ensures view == old(view) && BaseView() == old(BaseView())
      ensures Norm(cacheCoins[t].coins) == Lookup(view, t) && cacheCoins == old(cacheCoins)[t := cacheCoins[t]]
      ensures t in old(cacheCoins) ==> cacheCoins[t] == old(cacheCoins)[t].(fDirty := true)
      ensures t !in old(cacheCoins) ==> cacheCoins[t].fDirty && (cacheCoins[t].fFresh <==> t !in BaseView())
      ensures modUsage == if t in old(cacheCoins) then usage(old(cacheCoins)[t].coins) else 0
    {
      if t !in cacheCoins {
        var found, c := BaseGetCoins(t);
        assert Lookup(view, t) == Lookup(BaseView(), t) == Norm(c);
        assert cacheCoins - {t} == cacheCoins;
        OpenModifier(t, Entry(c, true, !found || c.IsPruned()), 0, BaseView());
      } else {
        var e := cacheCoins[t];
        TotalSplit(cacheCoins, usage, t);
        OpenModifier(t, e.(fDirty := true), usage(e.coins), BaseView());
      }
    }

    /** Last part of ModifyCoins, and the constructor of CCoinsModifier. */
    method OpenModifier(t: nat, e: Entry, cachedCoinUsage: nat, ghost below: View)
      requires Layer(below) && !hasModifier && e.fDirty && EntryOk(e, Lookup(below, t))
      requires Total(cacheCoins - {t}, usage) + cachedCoinUsage == cachedCoinsUsage
      modifies this`cacheCoins, this`hasModifier, this`modTx, this`modUsage, this`view
      ensures Layer(below) && hasModifier && modTx == t && modUsage == cachedCoinUsage
      ensures cacheCoins == old(cacheCoins)[t := e]
      ensures view == Put(old(view), t, Norm(e.coins))
      ensures Lookup(old(view), t) == Norm(e.coins) ==> view == old(view)
    {
      assert cacheCoins[t := e] - {t} == cacheCoins - {t};
      PutAgrees(view, cacheCoins, below, t, Some(e));
      if Lookup(view, t) == Norm(e.coins) { PutSame(view, t, Norm(e.coins)); }
      view := Put(view, t, Norm(e.coins));
      cacheCoins := cacheCoins[t := e];
      hasModifier, modTx, modUsage := true, t, cachedCoinUsage;
    }

    /** What the holder of a modifier may do: replace the record. */
    method SetModified(c: Coins)
      requires Structure() && Valid() && hasModifier
      modifies this`cacheCoins, this`view
      ensures Structure() && Valid() && BaseView() == old(BaseView())
      ensures cacheCoins == old(cacheCoins)[modTx := old(cacheCoins)[modTx].(coins := c)]
      ensures view == Put(old(view), modTx, Norm(c))
    {
      var e := cacheCoins[modTx].(coins := c);
      assert cacheCoins[modTx := e] - {modTx} == cacheCoins - {modTx};
      PutAgrees(view, cacheCoins, BaseView(), modTx, Some(e));
      view := Put(view, modTx, Norm(c));
      cacheCoins := cacheCoins[modTx := e];
    }

    /** The destructor of CCoinsModifier. */
    method CloseModifier()
      requires Structure() && Valid() && hasModifier
      modifies this`cacheCoins, this`hasModifier, this`cachedCoinsUsage
      ensures Structure() && Valid() && !hasModifier
      ensures view == old(view) && BaseView() == old(BaseView())
      ensures var e := old(cacheCoins)[modTx];
              cacheCoins == if e.fFresh && e.coins.IsPruned() then old(cacheCoins) - {modTx}
                            else old(cacheCoins)[modTx := e.(coins := Cleaned(e.coins))]
      ensures cachedCoinsUsage == Total(cacheCoins, usage)
    {
      Close(BaseView());
    }

    method Close(ghost below: View)
      requires Layer(below) && hasModifier
      modifies this`cacheCoins, this`hasModifier, this`cachedCoinsUsage
      ensures Layer(below) && !hasModifier && cacheCoins == Closed(old(cacheCoins), modTx)
    {
      ghost var cache := cacheCoins;
      hasModifier := false;
      ClosedLayer(view, cache, below, modTx);
      cachedCoinsUsage := cachedCoinsUsage - modUsage;
      CloseSlot();
      TotalPut(cache, usage, modTx, cache[modTx].(coins := Cleaned(cache[modTx].coins)));
    }

    /** Its last part: the record cleaned up, and what it uses. */
    method CloseSlot()
      requires modTx in cacheCoins
      modifies this`cacheCoins, this`cachedCoinsUsage
      ensures cacheCoins == Closed(old(cacheCoins), modTx)
      ensures var e := old(cacheCoins)[modTx];
              cachedCoinsUsage == old(cachedCoinsUsage)
                                  + if e.fFresh && e.coins.IsPruned() then 0 else usage(Cleaned(e.coins))
    {
      var e := cacheCoins[modTx];
      CleanedSame(e.coins);
      var c := Cleanup(e.coins);
      if e.fFresh && c.IsPruned() {
        cacheCoins := cacheCoins - {modTx};
      } else {
        cacheCoins := cacheCoins[modTx := e.(coins := c)];
        cachedCoinsUsage := cachedCoinsUsage + usage(c);
      }
    }

    /** For a record that is known not to exist below: saves looking it up.  The entry is FRESH,
        and a record it replaces in this cache is not subtracted from the accounting; so the
        layer stays consistent exactly when the layer below has nothing for `t` and a record
        replaced does not count. */
    method ModifyNewCoins(t: nat)
      requires Structure() && Valid() && !hasModifier
      modifies this`cacheCoins, this`hasModifier, this`modTx, this`modUsage, this`view
      ensures Structure() && hasModifier && modTx == t && modUsage == 0 && cachedCoinsUsage == old(cachedCoinsUsage)
      ensures BaseView() == old(BaseView()) && view == old(view) - {t}
      ensures cacheCoins == old(cacheCoins)[t := Entry(EMPTY_COINS, true, true)]
      ensures Valid() <==> t !in BaseView() && (t in old(cacheCoins) ==> usage(old(cacheCoins)[t].coins) == 0)
    {
      NewEntryLayer(view, cacheCoins, BaseView(), usage, t);
      view := view - {t};
      cacheCoins := cacheCoins[t := Entry(EMPTY_COINS, true, true)];
      hasModifier, modTx, modUsage := true, t, 0;
    }

    method Uncache(t: nat)
      requires Structure() && Valid() && !hasModifier
      modifies this`cacheCoins, this`cachedCoinsUsage
      ensures Structure() && Valid() && view == old(view) && BaseView() == old(BaseView())
      ensures cacheCoins == if t in old(cacheCoins) && !old(cacheCoins)[t].fDirty && !old(cacheCoins)[t].fFresh
                            then old(cacheCoins) - {t} else old(cacheCoins)
      ensures cachedCoinsUsage == Total(cacheCoins, usage)
    {
      if t in cacheCoins && !cacheCoins[t].fDirty && !cacheCoins[t].fFresh {
        TotalSplit(cacheCoins, usage, t);
        cachedCoinsUsage := cachedCoinsUsage - usage(cacheCoins[t].coins);
        cacheCoins := cacheCoins - {t};
      }
    }

    /** Takes over the entries of a child cache whose flags are right with respect to this
        cache's view: afterwards this layer stands for what the child stood for, and its own
        flags are right with respect to the layer below, which is not touched. */
    method BatchWrite(mapCoins: Cache, hashBlockIn: nat)
      requires Structure() && Valid() && !hasModifier
      requires AllClean(mapCoins) && FlagsOk(mapCoins, view)
      modifies this`cacheCoins, this`cachedCoinsUsage, this`hashBlock, this`view
      ensures Structure() && Valid() && BaseView() == old(BaseView()) && BaseBest() == old(BaseBest())
      ensures Agrees(view, mapCoins, old(view))
      ensures AllMerged(cacheCoins, mapCoins, map[], old(cacheCoins))
      ensures hashBlock == hashBlockIn && cachedCoinsUsage == Total(cacheCoins, usage)
    {
      MergeAll(mapCoins, BaseView());
      hashBlock := hashBlockIn;
    }

    /** The loop of BatchWrite, over the entries in any order. */
    method MergeAll(mapCoins: Cache, ghost below: View)
      requires Layer(below) && !hasModifier && AllClean(mapCoins) && FlagsOk(mapCoins, view)
      modifies this`cacheCoins, this`cachedCoinsUsage, this`view
      ensures Layer(below) && Agrees(view, mapCoins, old(view))
      ensures AllMerged(cacheCoins, mapCoins, map[], old(cacheCoins))
    {
      var rest := mapCoins;
      while rest != map[]
        invariant Layer(below) && Remaining(rest, mapCoins) && Partly(view, mapCoins, rest, old(view))
        invariant AllMerged(cacheCoins, mapCoins, rest, old(cacheCoins))
        decreases |rest|
      {
        var t :| t in rest;
        PartlyNext(view, mapCoins, rest, old(view), t);
        MergedNext(cacheCoins, mapCoins, rest, old(cacheCoins), t);
        if rest[t].fDirty {
          MergeEntry(t, rest[t], below);
        }
        rest := rest - {t};
      }
    }

    /** The body of that loop, for a dirty child entry. */
    method MergeEntry(t: nat, child: Entry, ghost below: View)
      requires Layer(below) && !hasModifier && IsClean(child.coins) && child.fDirty
      requires EntryOk(child, Lookup(view, t))
      modifies this`cacheCoins, this`cachedCoinsUsage, this`view
      ensures Layer(below) && view == Put(old(view), t, Norm(child.coins))
      ensures cacheCoins == Merged(old(cacheCoins), t, child)
    {
      MergedLayer(view, cacheCoins, below, t, child);
      MergeSlot(t, child);
      view := Put(view, t, Norm(child.coins));
    }

    /** The entry and the usage. */
    method MergeSlot(t: nat, child: Entry)
      requires child.fDirty
      modifies this`cacheCoins, this`cachedCoinsUsage
      ensures cacheCoins == Merged(old(cacheCoins), t, child)
      ensures cachedCoinsUsage - Total(cacheCoins, usage) == old(cachedCoinsUsage - Total(cacheCoins, usage))
    {
      TotalPut(cacheCoins, usage, t, child);
      if t !in cacheCoins {
        if !(child.fFresh && child.coins.IsPruned()) {
          TotalPut(cacheCoins, usage, t, Entry(child.coins, true, child.fFresh));
          cacheCoins := cacheCoins[t := Entry(child.coins, true, child.fFresh)];
          cachedCoinsUsage := cachedCoinsUsage + usage(child.coins);
        }
      } else {
        var us := cacheCoins[t];
        cachedCoinsUsage := cachedCoinsUsage - usage(us.coins);
        if us.fFresh && child.coins.IsPruned() {
          cacheCoins := cacheCoins - {t};
        } else {
          TotalPut(cacheCoins, usage, t, Entry(child.coins, true, us.fFresh));
          cacheCoins := cacheCoins[t := Entry(child.coins, true, us.fFresh)];
          cachedCoinsUsage := cachedCoinsUsage + usage(child.coins);
        }
      }
    }

    /** Pushes this cache's changes to the layer below, which then stands for the same map.

        The best block is another matter: a cache that never learnt one passes the null hash
        on, which wipes the one the layer below holds and uncovers the one beneath it.  The
        block reported survives exactly when this layer has one of its own, or the layer
        below is the database, or holds none, or holds the same as what lies beneath. */
    method Flush()
      requires Structure() && Valid() && !hasModifier
      modifies this, Repr
      ensures Structure() && Valid() && !hasModifier && hashBlock == old(hashBlock)
      ensures view == old(view) && BaseView() == view
      ensures cacheCoins == map[] && cachedCoinsUsage == 0
      ensures base != null ==> base.hashBlock == hashBlock && base.BaseView() == old(base.BaseView())
      ensures base == null ==> db.bestBlock == if hashBlock != 0 then hashBlock else old(db.bestBlock)
      ensures Best() == old(Best()) <==>
              old(hashBlock != 0 || base == null || base.hashBlock == 0 || base.hashBlock == base.BaseBest())
    {
      forall t | t in cacheCoins && !cacheCoins[t].fDirty ensures Norm(cacheCoins[t].coins) == Lookup(BaseView(), t) {
        assert EntryOk(cacheCoins[t], Lookup(BaseView(), t));
      }
      ghost var below := BaseView();
      ghost var beneath := if base == null then 0 else base.BaseBest();
      assert base != null ==> base.Best() == if base.hashBlock != 0 then base.hashBlock else beneath;
      if base == null {
        db.BatchWrite(cacheCoins, hashBlock);
      } else {
        base.BatchWrite(cacheCoins, hashBlock);
      }
      AgreesUnique(BaseView(), view, cacheCoins, below);
      cacheCoins := map[];
      cachedCoinsUsage := 0;
      assert base != null ==> base.Best() == if hashBlock != 0 then hashBlock else beneath;
    }

    /** The best block this layer reports; 0 stands for the null hash. */
    ghost function Best(): nat
      requires Structure()
      reads this, Repr
      decreases depth, 1
    {
      if hashBlock != 0 then hashBlock else BaseBest()
    }

    ghost function BaseBest(): nat
      requires Structure()
      reads this, Repr
      decreases depth, 0
    {
      if base == null then db.bestBlock else base.Best()
    }

    method GetBestBlock() returns (hash: nat)
      requires Structure()
      modifies Repr - {db}
      ensures Structure() && Best() == old(Best()) && BaseBest() == old(BaseBest())
      ensures hash == Best() == hashBlock
      ensures hash == if old(hashBlock) != 0 then old(hashBlock) else if base == null then db.bestBlock
                      else old(base.Best())
      ensures view == old(view) && cacheCoins == old(cacheCoins) && BaseView() == old(BaseView())
      ensures hasModifier == old(hasModifier) && modTx == old(modTx) && modUsage == old(modUsage)
      ensures cachedCoinsUsage == old(cachedCoinsUsage) && (old(Valid()) ==> Valid())
      decreases depth
    {
      if hashBlock == 0 {
        if base == null {
          hashBlock := db.bestBlock;
          assert old(Valid()) ==> old(BaseValid()) && BaseValid();
          assert old(Valid()) ==> Layer(BaseView());
        } else {
          assert Valid() ==> BaseValid() && base.Valid();
          hashBlock := base.GetBestBlock();
          assert old(Valid()) ==> base.Valid() && BaseValid();
          assert old(Valid()) ==> Layer(BaseView());
        }
      }
      hash := hashBlock;
    }
  }

  /** When ModifyNewCoins may be called: its entry's flags are right exactly when the layer
      below has nothing for `t`, and the accounting stays right exactly when a record it
      replaces had no usage.  Were there something below (the second of two transactions
      with one id), a new record spent and dropped before a flush would bring it back. */
  lemma NewEntryExact(cache: Cache, below: View, usage: Coins -> nat, t: nat, after: View)
    requires FlagsOk(cache, below) && Agrees(after, cache - {t}, below)
    ensures FlagsOk(cache[t := Entry(EMPTY_COINS, true, true)], below) <==> t !in below
    ensures Total(cache - {t}, usage) == Total(cache, usage) <==> (t in cache ==> usage(cache[t].coins) == 0)
    ensures t in after <==> t in below
  {
    TotalPut(cache, usage, t, Entry(EMPTY_COINS, true, true));
    var added := cache[t := Entry(EMPTY_COINS, true, true)];
    assert EntryOk(added[t], Lookup(below, t)) <==> t !in below;
    assert Lookup(after, t) == Lookup(below, t);
  }

  /** The conditions on a layer after that entry is made, with the modifier on it open. */
  lemma NewEntryLayer(view: View, cache: Cache, below: View, usage: Coins -> nat, t: nat)
    requires Agrees(view, cache, below) && FlagsOk(cache, below) && AllClean(cache)
    ensures var after := cache[t := Entry(EMPTY_COINS, true, true)];
            && Agrees(view - {t}, after, below) && AllClean(after - {t})
            && (FlagsOk(after, below) <==> t !in below)
            && (Total(after - {t}, usage) == Total(cache, usage) <==> (t in cache ==> usage(cache[t].coins) == 0))
  {
    var e := Entry(EMPTY_COINS, true, true);
    assert cache[t := e] - {t} == cache - {t};
    PutAgrees(view, cache, below, t, Some(e));
    PutAgrees(view, cache, below, t, None);
    NewEntryExact(cache, below, usage, t, Put(view, t, Lookup(below, t)));
  }

  lemma AgreesUnique(v: View, w: View, cache: Cache, below: View)
    requires Agrees(v, cache, below) && Agrees(w, cache, below)
    ensures v == w
  {
    forall t ensures Lookup(v, t) == Lookup(w, t) {
    }
    assert forall t :: t in v ==> Lookup(v, t) == Lookup(w, t);
    assert forall t :: t in w ==> Lookup(v, t) == Lookup(w, t);
  }

  lemma MergedLayer(view: View, cache: Cache, below: View, t: nat, child: Entry)
    requires Agrees(view, cache, below) && FlagsOk(cache, below) && AllClean(cache)
    requires child.fDirty && IsClean(child.coins) && EntryOk(child, Lookup(view, t))
    ensures var after := Merged(cache, t, child);
            Agrees(Put(view, t, Norm(child.coins)), after, below) && FlagsOk(after, below) && AllClean(after)
  {
    var r := Merge(Slot(cache, t), child);
    assert Lookup(view, t) == Through(Slot(cache, t), Lookup(below, t));
    MergeKeeps(Slot(cache, t), child, Lookup(below, t));
    PutAgrees(view, cache, below, t, r);
  }

  lemma PutAgrees(view: View, cache: Cache, below: View, t: nat, e: Option<Entry>)
    requires Agrees(view, cache, below)
    ensures e.Some? ==> Agrees(Put(view, t, Norm(e.value.coins)), cache[t := e.value], below)
    ensures e.None? ==> Agrees(Put(view, t, Lookup(below, t)), cache - {t}, below)
  {
    var with, without := Put(view, t, if e.Some? then Norm(e.value.coins) else None), Put(view, t, Lookup(below, t));
    forall x
      ensures e.Some? ==> Lookup(with, x) == Through(Slot(cache[t := e.value], x), Lookup(below, x))
      ensures e.None? ==> Lookup(without, x) == Through(Slot(cache - {t}, x), Lookup(below, x))
    {
      assert Lookup(view, x) == if x in cache then Norm(cache[x].coins) else Lookup(below, x);
    }
  }

  lemma PutSame(view: View, t: nat, c: Option<Coins>)
    requires Lookup(view, t) == c
    ensures Put(view, t, c) == view
  {
  }

  /** The record of `t` cleaned up once its modifier is done: a pruned one that is FRESH goes. */
  function Closed(cache: Cache, t: nat): Cache
    requires t in cache
  {
    var e := cache[t];
    if e.fFresh && e.coins.IsPruned() then cache - {t} else cache[t := e.(coins := Cleaned(e.coins))]
  }

  lemma ClosedLayer(view: View, cache: Cache, below: View, t: nat)
    requires Agrees(view, cache, below) && FlagsOk(cache, below) && AllClean(cache - {t}) && t in cache
    ensures Agrees(view, Closed(cache, t), below) && FlagsOk(Closed(cache, t), below) && AllClean(Closed(cache, t))
  {
    var e := cache[t];
    CleanedSame(e.coins);
    NormCleaned(e.coins);
    if e.fFresh && e.coins.IsPruned() {
      SlotGone(view, cache, below, t);
    } else {
      SlotCleaned(view, cache, below, t, Cleaned(e.coins));
    }
  }

  lemma SlotGone(view: View, cache: Cache, below: View, t: nat)
    requires Agrees(view, cache, below) && FlagsOk(cache, below)
    requires t in cache && Norm(cache[t].coins) == Lookup(below, t)
    ensures Agrees(view, cache - {t}, below) && FlagsOk(cache - {t}, below)
  {
    PutAgrees(view, cache, below, t, None);
    assert Lookup(view, t) == Norm(cache[t].coins);
    PutSame(view, t, Lookup(below, t));
  }

  lemma SlotCleaned(view: View, cache: Cache, below: View, t: nat, c: Coins)
    requires Agrees(view, cache, below) && FlagsOk(cache, below) && AllClean(cache - {t})
    requires t in cache && Norm(cache[t].coins) == Norm(c) && IsClean(c)
    ensures Agrees(view, cache[t := cache[t].(coins := c)], below)
    ensures FlagsOk(cache[t := cache[t].(coins := c)], below) && AllClean(cache[t := cache[t].(coins := c)])
  {
    PutAgrees(view, cache, below, t, Some(cache[t].(coins := c)));
    assert Lookup(view, t) == Norm(cache[t].coins);
    PutSame(view, t, Norm(c));
    assert forall x :: x in cache && x != t ==> x in cache - {t};
  }

  lemma NormCleaned(c: Coins)
    ensures Norm(Cleaned(c)) == Norm(c)
  {
    CleanedSame(c);
    CleanedSame(Cleaned(c));
  }

  lemma CleanNorm(v: View)
    requires forall t :: t in v ==> Clean(v[t])
    ensures forall t :: t in v ==> Norm(v[t]) == Some(v[t])
  {
    forall t | t in v ensures Norm(v[t]) == Some(v[t]) {
      CleanedSame(v[t]);
    }
  }
}
