/** The UTXO cache stack: write-back caches with DIRTY and FRESH flags over a database.

    Cache k (k >= 1) has cache k-1 as its base; level 0 is the database.  Every level
    stands for one plain map from outpoints to unspent coins (`Stacked`). */
module Coins {
  import opened Options

  datatype OutPoint = OutPoint(hash: nat, n: nat)

  datatype TxOut = TxOut(nValue: int, scriptPubKey: seq<nat>, nRounds: int)

  datatype Coin = Coin(out: TxOut, height: nat, coinBase: bool, coinStake: bool)

  datatype Entry = Entry(coin: Coin, isDirty: bool, isFresh: bool)

  datatype Level = Level(cacheCoins: map<OutPoint, Entry>, hashBlock: nat)

  const NULL_OUT := TxOut(-1, [], -10)
  const CLEARED_COIN := Coin(NULL_OUT, 0, false, false)
  const NULL_HASH: nat := 0
  const OP_RETURN := 0x6a
  const MAX_SCRIPT_SIZE := 10000

  predicate IsSpent(c: Coin) { c.out.nValue == -1 }

  predicate IsUnspendable(script: seq<nat>) {
    (|script| > 0 && script[0] == OP_RETURN) || |script| > MAX_SCRIPT_SIZE
  }

  // ----- the plain map behind each level -----------------------------------------

  type Utxos = map<OutPoint, Coin>

  function Unspent(db: map<OutPoint, Coin>): Utxos {
    map o | o in db && !IsSpent(db[o]) :: db[o]
  }

  /** A parent map seen through one cache. */
  function Overlay(parent: Utxos, cache: map<OutPoint, Entry>): Utxos {
    map o | o in parent.Keys + cache.Keys && (o in cache ==> !IsSpent(cache[o].coin)) ::
      if o in cache then cache[o].coin else parent[o]
  }

  /** What the flags promise about the parent: a FRESH entry has no unspent coin below it,
      an entry that is not DIRTY agrees with what is below it. */
  ghost predicate Coherent(parent: Utxos, cache: map<OutPoint, Entry>) {
    forall o :: o in cache ==> EntryCoherent(parent, o, cache[o])
  }

  ghost predicate EntryCoherent(parent: Utxos, o: OutPoint, e: Entry) {
    && (e.isFresh ==> o !in parent)
    && (!e.isDirty ==> if IsSpent(e.coin) then o !in parent else o in parent && parent[o] == e.coin)
  }

  /** `views` are the plain maps of all levels, the database first: each cache is coherent
      with the map below it and shows the map above it. */
  ghost predicate Stacked(db: map<OutPoint, Coin>, levels: seq<Level>, views: seq<Utxos>) {
    && |views| == |levels| + 1
    && views[0] == Unspent(db)
    && forall k :: 0 <= k < |levels| ==> Shows(views[k], levels[k], views[k + 1])
  }

  ghost predicate Shows(parent: Utxos, level: Level, view: Utxos) {
    Coherent(parent, level.cacheCoins) && view == Overlay(parent, level.cacheCoins)
  }

  /** The maps are a function of the contents: no two lists of maps fit one stack. */
  lemma {:induction false} ViewsUnique(db: map<OutPoint, Coin>, levels: seq<Level>, a: seq<Utxos>, b: seq<Utxos>, k: nat)
    requires Stacked(db, levels, a) && Stacked(db, levels, b) && k <= |levels|
    ensures a[k] == b[k]
  {
    if k > 0 {
      ViewsUnique(db, levels, a, b, k - 1);
      assert Shows(a[k - 1], levels[k - 1], a[k]) && Shows(b[k - 1], levels[k - 1], b[k]);
    }
  }

  // ----- AddCoin ----------------------------------------------------------------

  /** The entry AddCoin leaves behind, or None when it throws. */
  function AddedEntry(cache: map<OutPoint, Entry>, o: OutPoint, coin: Coin, overwrite: bool): Option<Entry> {
    var old_ := if o in cache then cache[o] else Entry(CLEARED_COIN, false, false);
    if !overwrite && !IsSpent(old_.coin) then None
    else Some(Entry(coin, true, old_.isFresh || (!overwrite && !old_.isDirty)))
  }

  /** AddCoin keeps the FRESH promise exactly when a caller who rules out overwriting is
      right about it, or the outpoint is already in this cache. */
  lemma AddCoinCoherentIff(parent: Utxos, cache: map<OutPoint, Entry>, o: OutPoint, coin: Coin, overwrite: bool)
    requires Coherent(parent, cache) && !IsSpent(coin)
    requires AddedEntry(cache, o, coin, overwrite).Some?
    ensures Coherent(parent, cache[o := AddedEntry(cache, o, coin, overwrite).value])
      <==> overwrite || o in cache || o !in parent
  {
    var e := AddedEntry(cache, o, coin, overwrite).value;
    var after := cache[o := e];
    if o in cache { assert EntryCoherent(parent, o, cache[o]); }
    if overwrite || o in cache || o !in parent {
      forall p | p in after ensures EntryCoherent(parent, p, after[p]) {
        if p != o { assert EntryCoherent(parent, p, cache[p]); }
      }
    } else {
      assert !EntryCoherent(parent, o, after[o]);
    }
  }

  function SpentCache(cache: map<OutPoint, Entry>, o: OutPoint): map<OutPoint, Entry>
    requires o in cache
  {
    if cache[o].isFresh then cache - {o} else cache[o := Entry(CLEARED_COIN, true, cache[o].isFresh)]
  }

  /** What goes wrong otherwise: the coin added over an unspent one and then spent leaves the
      old coin visible again. */
  lemma WrongNoOverwriteResurrects(parent: Utxos, cache: map<OutPoint, Entry>, o: OutPoint, coin: Coin)
    requires o in parent && o !in cache && !IsSpent(coin)
    ensures var added := cache[o := AddedEntry(cache, o, coin, false).value];
      && Overlay(parent, added) == Overlay(parent, cache)[o := coin]
      && o in Overlay(parent, SpentCache(added, o))
      && Overlay(parent, SpentCache(added, o)) == Overlay(parent, cache)
  {
    var added := cache[o := AddedEntry(cache, o, coin, false).value];
    assert added - {o} == cache;
  }

  // ----- BatchWrite -------------------------------------------------------------

  function Lookup(cache: map<OutPoint, Entry>, o: OutPoint): Option<Entry> {
    if o in cache then Some(cache[o]) else None
  }

  /** What one child entry does to the parent cache's entry for the same outpoint. */
  function MergeEntry(us: Option<Entry>, child: Entry): Option<Entry> {
    if !child.isDirty then us
    else match us
      case None =>
        if child.isFresh && IsSpent(child.coin) then None else Some(Entry(child.coin, true, child.isFresh))
      case Some(u) =>
        if u.isFresh && IsSpent(child.coin) then None else Some(Entry(child.coin, true, u.isFresh))
  }

  ghost predicate IsMerged(us: map<OutPoint, Entry>, child: map<OutPoint, Entry>, merged: map<OutPoint, Entry>) {
    forall o :: Lookup(merged, o) == if o in child then MergeEntry(Lookup(us, o), child[o]) else Lookup(us, o)
  }

  /** The central step: writing a coherent child into a coherent parent cache makes the
      parent show what the child showed, keeps the parent coherent with the grandparent,
      and never meets a FRESH child entry over an unspent parent entry. */
  lemma MergeIsOverlay(grand: Utxos, us: map<OutPoint, Entry>, child: map<OutPoint, Entry>, merged: map<OutPoint, Entry>)
    requires Coherent(grand, us) && Coherent(Overlay(grand, us), child) && IsMerged(us, child, merged)
    ensures Coherent(grand, merged)
    ensures Overlay(grand, merged) == Overlay(Overlay(grand, us), child)
    ensures forall o :: o in child && child[o].isFresh && o in us ==> IsSpent(us[o].coin)
  {
    var parent := Overlay(grand, us);
    forall o | o in us ensures EntryCoherent(grand, o, us[o]) { }
    forall o | o in child ensures EntryCoherent(parent, o, child[o]) { }
    forall o ensures o in merged ==> EntryCoherent(grand, o, merged[o]) {
      MergeEntryOverlay(grand, us, child, merged, o);
    }
    forall o
      ensures o in Overlay(grand, merged) <==> o in Overlay(parent, child)
      ensures o in Overlay(grand, merged) ==> Overlay(grand, merged)[o] == Overlay(parent, child)[o]
    {
      MergeEntryOverlay(grand, us, child, merged, o);
    }
  }

  lemma MergeEntryOverlay(grand: Utxos, us: map<OutPoint, Entry>, child: map<OutPoint, Entry>,
                          merged: map<OutPoint, Entry>, o: OutPoint)
    requires o in us ==> EntryCoherent(grand, o, us[o])
    requires o in child ==> EntryCoherent(Overlay(grand, us), o, child[o])
    requires IsMerged(us, child, merged)
    ensures o in merged ==> EntryCoherent(grand, o, merged[o])
    ensures o in Overlay(grand, merged) <==> o in Overlay(Overlay(grand, us), child)
    ensures o in Overlay(grand, merged) ==> Overlay(grand, merged)[o] == Overlay(Overlay(grand, us), child)[o]
  {
    assert Lookup(merged, o) == if o in child then MergeEntry(Lookup(us, o), child[o]) else Lookup(us, o);
  }

  /** What the database keeps for one outpoint after a batch. */
  function DbWrite(db: map<OutPoint, Coin>, batch: map<OutPoint, Entry>): map<OutPoint, Coin> {
    map o | o in db.Keys + batch.Keys && (o in batch && batch[o].isDirty ==> !IsSpent(batch[o].coin))
            && (o in db || batch[o].isDirty) ::
      if o in batch && batch[o].isDirty then batch[o].coin else db[o]
  }

  lemma DbWriteIsOverlay(db: map<OutPoint, Coin>, child: map<OutPoint, Entry>)
    requires Coherent(Unspent(db), child)
    ensures Unspent(DbWrite(db, child)) == Overlay(Unspent(db), child)
  {
    var a, b := Unspent(DbWrite(db, child)), Overlay(Unspent(db), child);
    forall o ensures (o in a <==> o in b) && (o in a ==> a[o] == b[o]) {
      if o in child { assert EntryCoherent(Unspent(db), o, child[o]); }
    }
  }

  // ----- Flush ------------------------------------------------------------------

  /** The stack after cache k was written into cache k-1 and emptied. */
  function FlushedLevels(levels: seq<Level>, k: nat, merged: map<OutPoint, Entry>): seq<Level>
    requires 2 <= k <= |levels|
  {
    levels[k - 2 := Level(merged, levels[k - 1].hashBlock)][k - 1 := levels[k - 1].(cacheCoins := map[])]
  }

  /** Flushing cache k over cache k-1: the parent's map becomes the child's, every other
      map stays as it was. */
  lemma FlushCache(db: map<OutPoint, Coin>, levels: seq<Level>, views: seq<Utxos>, k: nat, merged: map<OutPoint, Entry>)
    requires 2 <= k <= |levels| && Stacked(db, levels, views)
    requires IsMerged(levels[k - 2].cacheCoins, levels[k - 1].cacheCoins, merged)
    ensures Stacked(db, FlushedLevels(levels, k, merged), views[k - 1 := views[k]])
  {
    assert Shows(views[k - 2], levels[k - 2], views[k - 1]) && Shows(views[k - 1], levels[k - 1], views[k]);
    MergeIsOverlay(views[k - 2], levels[k - 2].cacheCoins, levels[k - 1].cacheCoins, merged);
    EmptyOverlay(views[k]);
  }

  lemma FlushToDb(db: map<OutPoint, Coin>, levels: seq<Level>, views: seq<Utxos>)
    requires levels != [] && Stacked(db, levels, views)
    ensures Stacked(DbWrite(db, levels[0].cacheCoins), levels[0 := levels[0].(cacheCoins := map[])], views[0 := views[1]])
  {
    assert Shows(views[0], levels[0], views[1]);
    DbWriteIsOverlay(db, levels[0].cacheCoins);
    EmptyOverlay(views[1]);
  }

  lemma EmptyOverlay(v: Utxos)
    ensures Overlay(v, map[]) == v
  {
  }

  /** The check the source has commented out could never fire on a coherent stack. */
  lemma FreshNeverMisapplied(db: map<OutPoint, Coin>, levels: seq<Level>, views: seq<Utxos>, k: nat, o: OutPoint)
    requires 2 <= k <= |levels| && Stacked(db, levels, views)
    requires o in levels[k - 1].cacheCoins && o in levels[k - 2].cacheCoins
    ensures !(levels[k - 1].cacheCoins[o].isFresh && !IsSpent(levels[k - 2].cacheCoins[o].coin))
  {
    assert Shows(views[k - 2], levels[k - 2], views[k - 1]) && Shows(views[k - 1], levels[k - 1], views[k]);
    assert EntryCoherent(views[k - 1], o, levels[k - 1].cacheCoins[o]);
  }
}
