/** The stack of caches as an object: every method against the plain maps of its levels. */
module CoinsStack {
  import opened Options
  import opened Coins

  // ----- what one operation does to the views ------------------------------------

  /** Caching what the parent answered changes nothing visible. */
  lemma FetchKeepsView(parent: Utxos, level: Level, view: Utxos, o: OutPoint, coin: Coin)
    requires Shows(parent, level, view) && o !in level.cacheCoins && Answers(Some(coin), parent, o)
    ensures Shows(parent, level.(cacheCoins := level.cacheCoins[o := Entry(coin, false, IsSpent(coin))]), view)
  {
  }

  lemma UncacheKeepsView(parent: Utxos, level: Level, view: Utxos, o: OutPoint)
    requires Shows(parent, level, view) && o in level.cacheCoins && Unmodified(level.cacheCoins[o])
    ensures Shows(parent, level.(cacheCoins := level.cacheCoins - {o}), view)
  {
    assert EntryCoherent(parent, o, level.cacheCoins[o]);
  }

  lemma SpendShows(parent: Utxos, level: Level, view: Utxos, o: OutPoint)
    requires Shows(parent, level, view) && o in level.cacheCoins
    ensures Shows(parent, level.(cacheCoins := SpentCache(level.cacheCoins, o)), view - {o})
  {
    assert EntryCoherent(parent, o, level.cacheCoins[o]);
  }

  lemma AddShows(parent: Utxos, level: Level, view: Utxos, o: OutPoint, coin: Coin, overwrite: bool)
    requires Shows(parent, level, view) && !IsSpent(coin)
    requires overwrite || o in level.cacheCoins || o !in parent
    requires AddedEntry(level.cacheCoins, o, coin, overwrite).Some?
    ensures var entry := AddedEntry(level.cacheCoins, o, coin, overwrite).value;
      Shows(parent, level.(cacheCoins := level.cacheCoins[o := entry]), view[o := coin])
  {
    AddCoinCoherentIff(parent, level.cacheCoins, o, coin, overwrite);
  }

  /** A reply to GetCoin that agrees with a plain map: an unspent coin is the map's coin, a
      spent one or none at all means the map has none. */
  predicate Answers(r: Option<Coin>, view: Utxos, o: OutPoint) {
    if r.Some? && !IsSpent(r.value) then o in view && view[o] == r.value else o !in view
  }

  /** flags == 0 */
  predicate Unmodified(e: Entry) { !e.isDirty && !e.isFresh }

  // ----- the best block ---------------------------------------------------------

  function BestAt(dbBest: nat, levels: seq<Level>, k: nat): nat
    requires k <= |levels|
  {
    if k == 0 then dbBest
    else if levels[k - 1].hashBlock != NULL_HASH then levels[k - 1].hashBlock
    else BestAt(dbBest, levels, k - 1)
  }

  lemma {:induction false} BestSame(dbBest: nat, a: seq<Level>, b: seq<Level>, j: nat, k: nat)
    requires |a| == |b| && j <= k <= |a|
    requires BestAt(dbBest, a, j) == BestAt(dbBest, b, j)
    requires forall i :: j <= i < k ==> a[i].hashBlock == b[i].hashBlock
    ensures BestAt(dbBest, a, k) == BestAt(dbBest, b, k)
  {
    if k > j {
      BestSame(dbBest, a, b, j, k - 1);
    }
  }

  ghost predicate SameHashes(a: seq<Level>, b: seq<Level>) {
    |a| == |b| && forall i :: 0 <= i < |a| ==> a[i].hashBlock == b[i].hashBlock
  }

  // ----- the object -------------------------------------------------------------

  class Stack {
    var db: map<OutPoint, Coin>
    var dbBest: nat
    var levels: seq<Level>
    ghost var views: seq<Utxos>  // the plain map of every level, the database first

    ghost predicate Valid()
      reads this
    {
      Stacked(db, levels, views)
    }

    constructor (base: map<OutPoint, Coin>, best: nat)
      ensures Valid() && db == base && dbBest == best && levels == []
    {
      db, dbBest, levels, views := base, best, [], [Unspent(base)];
    }

    /** A new, empty cache on top. */
    method Push()
      requires Valid()
      modifies this`levels, this`views
      ensures Valid() && levels == old(levels) + [Level(map[], NULL_HASH)]
      ensures views == old(views) + [old(views[|levels|])]
    {
      EmptyOverlay(views[|levels|]);
      views := views + [views[|levels|]];
      levels := levels + [Level(map[], NULL_HASH)];
    }

    /** The top cache is destroyed without being flushed. */
    method Pop()
      requires Valid() && levels != []
      modifies this`levels, this`views
      ensures Valid() && levels == old(levels)[..|old(levels)| - 1]
      ensures views == old(views)[..|old(levels)|]
    {
      views := views[..|levels|];
      levels := levels[..|levels| - 1];
    }

    method GetCoin(k: nat, o: OutPoint) returns (r: Option<Coin>)
      requires Valid() && k <= |levels|
      modifies this`levels
      ensures Valid() && SameHashes(levels, old(levels))
      ensures forall i :: k <= i < |levels| ==> levels[i] == old(levels)[i]
      ensures Answers(r, views[k], o)
      decreases k, 1
    {
      if k == 0 {
        r := if o in db then Some(db[o]) else None;
      } else {
        var e := FetchCoin(k, o);
        r := if e.Some? then Some(e.value.coin) else None;
      }
    }

    method FetchCoin(k: nat, o: OutPoint) returns (e: Option<Entry>)
      requires Valid() && 1 <= k <= |levels|
      modifies this`levels
      ensures Valid() && SameHashes(levels, old(levels))
      ensures forall i :: k <= i < |levels| ==> levels[i] == old(levels)[i]
      ensures e == Lookup(levels[k - 1].cacheCoins, o)
      ensures Answers(if e.Some? then Some(e.value.coin) else None, views[k], o)
      decreases k, 0
    {
      if o in levels[k - 1].cacheCoins {
        return Some(levels[k - 1].cacheCoins[o]);
      }
      var tmp := GetCoin(k - 1, o);
      if tmp.None? {
        return None;
      }
      var entry := Entry(tmp.value, false, IsSpent(tmp.value));
      FetchKeepsView(views[k - 1], levels[k - 1], views[k], o, tmp.value);
      levels := levels[k - 1 := levels[k - 1].(cacheCoins := levels[k - 1].cacheCoins[o := entry])];
      e := Some(entry);
    }

    method HaveCoin(k: nat, o: OutPoint) returns (have: bool)
      requires Valid() && k <= |levels|
      modifies this`levels
      ensures Valid() && SameHashes(levels, old(levels))
      ensures have <==> o in views[k]
    {
      var c := GetCoin(k, o);
      have := c.Some? && !IsSpent(c.value);
    }

    /** A coin goes into the top cache; `ok` is false when AddCoin throws.  The caller
        promises that nothing unspent is hidden below this cache unless an overwrite is
        announced. */
    method AddCoin(o: OutPoint, coin: Coin, overwrite: bool) returns (ok: bool)
      requires Valid() && levels != []
      requires !IsSpent(coin)
      requires overwrite || o in levels[|levels| - 1].cacheCoins || o !in views[|levels| - 1]
      modifies this`levels, this`views
      ensures Valid() && SameHashes(levels, old(levels))
      ensures ok <==> overwrite || IsUnspendable(coin.out.scriptPubKey) || o !in old(views[|levels|])
      ensures views ==
        if ok && !IsUnspendable(coin.out.scriptPubKey)
        then old(views[|levels| := views[|levels|][o := coin]])
        else old(views)
    {
      var top := |levels| - 1;
      var cache := levels[top].cacheCoins;
      if IsUnspendable(coin.out.scriptPubKey) {
        return true;
      }
      var entry := if o in cache then cache[o] else Entry(CLEARED_COIN, false, false);
      var isFresh := false;
      if !overwrite {
        if !IsSpent(entry.coin) {
          return false;
        }
        isFresh := !entry.isDirty;
      }
      entry := Entry(coin, true, entry.isFresh || isFresh);
      assert AddedEntry(cache, o, coin, overwrite) == Some(entry);
      AddShows(views[top], levels[top], views[top + 1], o, coin, overwrite);
      levels := levels[top := levels[top].(cacheCoins := cache[o := entry])];
      views := views[top + 1 := views[top + 1][o := coin]];
      ok := true;
    }

    /** Spends a coin in the top cache and hands out what was there. */
    method SpendCoin(o: OutPoint) returns (moved: Option<Coin>)
      requires Valid() && levels != []
      modifies this`levels, this`views
      ensures Valid() && SameHashes(levels, old(levels))
      ensures views == old(views[|levels| := views[|levels|] - {o}])
      ensures Answers(moved, old(views[|levels|]), o)
    {
      var top := |levels| - 1;
      var e := FetchCoin(top + 1, o);
      if e.None? {
        assert views[top + 1] - {o} == views[top + 1];
        return None;
      }
      moved := Some(e.value.coin);
      SpendEntry(o, e.value);
    }

    /** Erases or clears the entry of the top cache. */
    method SpendEntry(o: OutPoint, e: Entry)
      requires Valid() && levels != [] && Lookup(levels[|levels| - 1].cacheCoins, o) == Some(e)
      modifies this`levels, this`views
      ensures Valid() && SameHashes(levels, old(levels))
      ensures views == old(views[|levels| := views[|levels|] - {o}])
    {
      var top := |levels| - 1;
      SpendShows(views[top], levels[top], views[top + 1], o);
      var cache := levels[top].cacheCoins;
      if e.isFresh {
        cache := cache - {o};
      } else {
        cache := cache[o := Entry(CLEARED_COIN, true, e.isFresh)];
      }
      levels := levels[top := levels[top].(cacheCoins := cache)];
      views := views[top + 1 := views[top + 1] - {o}];
    }

    /** Drops an unmodified entry of any cache. */
    method Uncache(k: nat, o: OutPoint)
      requires Valid() && 1 <= k <= |levels|
      modifies this`levels
      ensures Valid() && SameHashes(levels, old(levels))
      ensures forall i :: 0 <= i < |levels| && i != k - 1 ==> levels[i] == old(levels)[i]
      ensures levels[k - 1].cacheCoins ==
        if Lookup(old(levels)[k - 1].cacheCoins, o).Some? && Unmodified(old(levels)[k - 1].cacheCoins[o])
        then old(levels)[k - 1].cacheCoins - {o} else old(levels)[k - 1].cacheCoins
    {
      var cache := levels[k - 1].cacheCoins;
      if o in cache && Unmodified(cache[o]) {
        UncacheKeepsView(views[k - 1], levels[k - 1], views[k], o);
        levels := levels[k - 1 := levels[k - 1].(cacheCoins := cache - {o})];
      }
    }

    /** The merge loop of a cache receiving a batch; entries come in any order. */
    method BatchWriteCache(k: nat, batch: map<OutPoint, Entry>, hash: nat)
      requires 1 <= k <= |levels|
      modifies this`levels
      ensures |levels| == |old(levels)|
      ensures forall i :: 0 <= i < |levels| && i != k - 1 ==> levels[i] == old(levels)[i]
      ensures IsMerged(old(levels)[k - 1].cacheCoins, batch, levels[k - 1].cacheCoins)
      ensures levels[k - 1].hashBlock == hash
    {
      var us := levels[k - 1].cacheCoins;
      var rest := batch;
      while rest != map[]
        invariant rest.Keys <= batch.Keys && forall o :: o in rest ==> rest[o] == batch[o]
        invariant forall o :: o in rest || o !in batch ==> Lookup(us, o) == Lookup(levels[k - 1].cacheCoins, o)
        invariant forall o :: o in batch && o !in rest ==>
          Lookup(us, o) == MergeEntry(Lookup(levels[k - 1].cacheCoins, o), batch[o])
        decreases rest.Keys
      {
        var o :| o in rest;
        var child := rest[o];
        if child.isDirty {
          if o !in us {
            if !(child.isFresh && IsSpent(child.coin)) {
              us := us[o := Entry(child.coin, true, child.isFresh)];
            }
          } else if us[o].isFresh && IsSpent(child.coin) {
            us := us - {o};
          } else {
            us := us[o := Entry(child.coin, true, us[o].isFresh)];
          }
        }
        rest := rest - {o};
      }
      levels := levels[k - 1 := Level(us, hash)];
    }

    /** The database receiving a batch. */
    method BatchWriteDb(batch: map<OutPoint, Entry>, hash: nat)
      modifies this`db, this`dbBest
      ensures db == DbWrite(old(db), batch)
      ensures dbBest == if hash != NULL_HASH then hash else old(dbBest)
    {
      var rest := batch;
      var out := db;
      while rest != map[]
        invariant rest.Keys <= batch.Keys && forall o :: o in rest ==> rest[o] == batch[o]
        invariant forall o :: o in out <==>
          if o in batch && o !in rest && batch[o].isDirty then !IsSpent(batch[o].coin) else o in db
        invariant forall o :: o in out ==>
          out[o] == if o in batch && o !in rest && batch[o].isDirty then batch[o].coin else db[o]
        decreases rest.Keys
      {
        var o :| o in rest;
        if rest[o].isDirty {
          out := if IsSpent(rest[o].coin) then out - {o} else out[o := rest[o].coin];
        }
        rest := rest - {o};
      }
      assert out == DbWrite(db, batch);
      db := out;
      if hash != NULL_HASH {
        dbBest := hash;
      }
    }

    /** Flush makes the parent's map equal to the flushed one and changes no other map.
        The best block becomes that of this cache or, if it holds none, of what is below its
        parent: it survives exactly when this cache holds one itself, writes to the database,
        or its parent and grandparent agreed already. */
    method Flush(k: nat)
      requires Valid() && 1 <= k <= |levels|
      modifies this
      ensures Valid() && |levels| == |old(levels)| && levels[k - 1].cacheCoins == map[]
      ensures views == old(views[k - 1 := views[k]])
      ensures BestAt(dbBest, levels, k) == BestAt(dbBest, levels, k - 1)
      ensures BestAt(dbBest, levels, k) ==
        if old(levels)[k - 1].hashBlock != NULL_HASH then old(levels)[k - 1].hashBlock
        else if k == 1 then old(dbBest) else old(BestAt(dbBest, levels, k - 2))
      ensures BestAt(dbBest, levels, k) == old(BestAt(dbBest, levels, k)) <==>
        || old(levels)[k - 1].hashBlock != NULL_HASH
        || k == 1
        || old(BestAt(dbBest, levels, k - 1)) == old(BestAt(dbBest, levels, k - 2))
    {
      ghost var before := levels;
      var child := levels[k - 1];
      if k == 1 {
        FlushToDb(db, levels, views);
        BatchWriteDb(child.cacheCoins, child.hashBlock);
        levels := levels[k - 1 := child.(cacheCoins := map[])];
      } else {
        BatchWriteCache(k - 1, child.cacheCoins, child.hashBlock);
        ghost var merged := levels[k - 2].cacheCoins;
        FlushCache(db, before, views, k, merged);
        levels := levels[k - 1 := child.(cacheCoins := map[])];
        assert levels == FlushedLevels(before, k, merged);
        assert BestAt(dbBest, levels, k) == BestAt(dbBest, levels, k - 1);
        BestSame(dbBest, levels, before, 0, k - 2);
      }
      views := views[k - 1 := views[k]];
    }

    method SetBestBlock(k: nat, hash: nat)
      requires Valid() && 1 <= k <= |levels|
      modifies this`levels
      ensures Valid() && levels == old(levels)[k - 1 := old(levels)[k - 1].(hashBlock := hash)]
      ensures hash != NULL_HASH ==> BestAt(dbBest, levels, k) == hash
      ensures forall i :: 0 <= i < k ==> BestAt(dbBest, levels, i) == old(BestAt(dbBest, levels, i))
    {
      ghost var before := levels;
      assert Shows(views[k - 1], levels[k - 1], views[k]);
      levels := levels[k - 1 := levels[k - 1].(hashBlock := hash)];
      forall i | 0 <= i < k ensures BestAt(dbBest, levels, i) == BestAt(dbBest, before, i) {
        BestSame(dbBest, levels, before, 0, i);
      }
    }

    method GetBestBlock(k: nat) returns (hash: nat)
      requires Valid() && k <= |levels|
      modifies this`levels
      ensures Valid() && |levels| == |old(levels)|
      ensures forall i :: 0 <= i < |levels| ==> levels[i].cacheCoins == old(levels)[i].cacheCoins
      ensures forall i :: k <= i < |levels| ==> levels[i] == old(levels)[i]
      ensures forall i :: 0 <= i <= |levels| ==> BestAt(dbBest, levels, i) == old(BestAt(dbBest, levels, i))
      ensures hash == BestAt(dbBest, levels, k)
      decreases k
    {
      if k == 0 {
        return dbBest;
      }
      if levels[k - 1].hashBlock == NULL_HASH {
        var h := GetBestBlock(k - 1);
        ghost var mid := levels;
        assert Shows(views[k - 1], levels[k - 1], views[k]);
        levels := levels[k - 1 := levels[k - 1].(hashBlock := h)];
        BestCached(dbBest, mid, k);
      }
      hash := levels[k - 1].hashBlock;
    }
  }

  /** Remembering the base's best block does not change anybody's best block. */
  lemma BestCached(dbBest: nat, levels: seq<Level>, k: nat)
    requires 1 <= k <= |levels| && levels[k - 1].hashBlock == NULL_HASH
    ensures var after := levels[k - 1 := levels[k - 1].(hashBlock := BestAt(dbBest, levels, k - 1))];
      forall i :: 0 <= i <= |levels| ==> BestAt(dbBest, after, i) == BestAt(dbBest, levels, i)
  {
    var after := levels[k - 1 := levels[k - 1].(hashBlock := BestAt(dbBest, levels, k - 1))];
    forall i | 0 <= i <= |levels| ensures BestAt(dbBest, after, i) == BestAt(dbBest, levels, i) {
      if i < k {
        BestSame(dbBest, after, levels, 0, i);
      } else {
        BestSame(dbBest, after, levels, 0, k - 1);
        BestSame(dbBest, after, levels, k, i);
      }
    }
  }

  /** A stack of three levels: the database at block 1, a cache at block 2, and a cache without a
      best block. */
  ghost predicate ThreeLevels(stack: Stack)
    reads stack
  {
    stack.Valid() && stack.dbBest == 1 && stack.levels == [Level(map[], 2), Level(map[], NULL_HASH)]
  }

  /** Flushing the upper cache takes its best block from 2 back to 1. */
  method BestBlockLost(stack: Stack)
    requires ThreeLevels(stack)
    modifies stack
    ensures old(BestAt(stack.dbBest, stack.levels, 2)) == 2
    ensures stack.Valid() && |stack.levels| == 2 && BestAt(stack.dbBest, stack.levels, 2) == 1
  {
    assert BestAt(stack.dbBest, stack.levels, 0) == 1 && BestAt(stack.dbBest, stack.levels, 1) == 2;
    stack.Flush(2);
  }

  /** Such a stack can be built. */
  method BuildThreeLevels() returns (stack: Stack)
    ensures fresh(stack) && ThreeLevels(stack)
  {
    stack := new Stack(map[], 1);
    stack.Push();
    stack.SetBestBlock(1, 2);
    stack.Push();
  }

  // ----- whole runs -------------------------------------------------------------

  datatype Op =
    | PushCache
    | DropCache
    | Read(k: nat, o: OutPoint)
    | Have(k: nat, o: OutPoint)
    | Add(o: OutPoint, coin: Coin, overwrite: bool)
    | Spend(o: OutPoint)
    | Forget(k: nat, o: OutPoint)
    | FlushLevel(k: nat)

  /** What a caller must respect, said on the plain maps alone. */
  predicate Legal(views: seq<Utxos>, op: Op) {
    match op
    case PushCache => true
    case DropCache => |views| > 1
    case Read(k, _) => k < |views|
    case Have(k, _) => k < |views|
    case Add(o, coin, overwrite) =>
      |views| > 1 && !IsSpent(coin) && (overwrite || o !in views[|views| - 1])
    case Spend(_) => |views| > 1
    case Forget(k, _) => 1 <= k < |views|
    case FlushLevel(k) => 1 <= k < |views|
  }

  /** The operation on plain maps: caching, flags and uncaching do not appear. */
  function SpecStep(views: seq<Utxos>, op: Op): (r: seq<Utxos>)
    requires |views| > 0 && Legal(views, op)
    ensures |r| > 0
  {
    var top := |views| - 1;
    match op
    case PushCache => views + [views[top]]
    case DropCache => views[..top]
    case Read(_, _) => views
    case Have(_, _) => views
    case Add(o, coin, _) =>
      if IsUnspendable(coin.out.scriptPubKey) then views else views[top := views[top][o := coin]]
    case Spend(o) => views[top := views[top] - {o}]
    case Forget(_, _) => views
    case FlushLevel(k) => views[k - 1 := views[k]]
  }

  /** The coin a plain map hands out, if the operation asks for one. */
  function SpecAnswer(views: seq<Utxos>, op: Op): Option<Coin>
    requires |views| > 0 && Legal(views, op)
  {
    match op
    case Read(k, o) => if o in views[k] then Some(views[k][o]) else None
    case Have(k, o) => if o in views[k] then Some(CLEARED_COIN) else None
    case Spend(o) => if o in views[|views| - 1] then Some(views[|views| - 1][o]) else None
    case _ => None
  }

  ghost predicate LegalRun(views: seq<Utxos>, ops: seq<Op>)
    requires |views| > 0
    decreases |ops|
  {
    ops == [] || (Legal(views, ops[0]) && LegalRun(SpecStep(views, ops[0]), ops[1..]))
  }

  ghost function SpecRun(views: seq<Utxos>, ops: seq<Op>): (r: (seq<Utxos>, seq<Option<Coin>>))
    requires |views| > 0 && LegalRun(views, ops)
    ensures |r.1| == |ops|
    decreases |ops|
  {
    if ops == [] then (views, [])
    else
      var rest := SpecRun(SpecStep(views, ops[0]), ops[1..]);
      (rest.0, [SpecAnswer(views, ops[0])] + rest.1)
  }

  /** The unspent coin in a reply. */
  function Live(r: Option<Coin>): Option<Coin> {
    if r.Some? && !IsSpent(r.value) then r else None
  }

  /** One operation on the caches is one operation on the plain maps. */
  method Perform(stack: Stack, op: Op) returns (answer: Option<Coin>)
    requires stack.Valid() && Legal(stack.views, op)
    modifies stack
    ensures stack.Valid()
    ensures stack.views == old(SpecStep(stack.views, op))
    ensures answer == old(SpecAnswer(stack.views, op))
  {
    answer := None;
    match op
    case PushCache => stack.Push();
    case DropCache => stack.Pop();
    case Read(k, o) =>
      var c := stack.GetCoin(k, o);
      answer := Live(c);
    case Have(k, o) =>
      var have := stack.HaveCoin(k, o);
      answer := if have then Some(CLEARED_COIN) else None;
    case Add(o, coin, overwrite) =>
      HiddenCoinShows(stack.db, stack.levels, stack.views, o);
      var ok := stack.AddCoin(o, coin, overwrite);
    case Spend(o) =>
      var c := stack.SpendCoin(o);
      answer := Live(c);
    case Forget(k, o) => stack.Uncache(k, o);
    case FlushLevel(k) => stack.Flush(k);
  }

  /** An outpoint that is neither cached on top nor in the top map is not below either. */
  lemma HiddenCoinShows(db: map<OutPoint, Coin>, levels: seq<Level>, views: seq<Utxos>, o: OutPoint)
    requires Stacked(db, levels, views)
    ensures levels != [] && o !in views[|levels|] && o !in levels[|levels| - 1].cacheCoins ==> o !in views[|levels| - 1]
  {
    if levels != [] {
      assert Shows(views[|levels| - 1], levels[|levels| - 1], views[|levels|]);
    }
  }

  /** A stack of any depth behaves as plain maps over every legal sequence of operations. */
  method Run(stack: Stack, ops: seq<Op>) returns (answers: seq<Option<Coin>>)
    requires stack.Valid() && LegalRun(stack.views, ops)
    modifies stack
    ensures stack.Valid()
    ensures (stack.views, answers) == old(SpecRun(stack.views, ops))
    decreases |ops|
  {
    if ops == [] {
      return [];
    }
    var answer := Perform(stack, ops[0]);
    var rest := Run(stack, ops[1..]);
    answers := [answer] + rest;
  }
}
