/** Writing the address manager to a stream and rebuilding it from one: the source's loops on the
    fields of the object o.  The key is part of the stream, so both objects share their hashes. */
module AddrDisk {
  import opened AddrTables
  import AddrState
  import opened AddrStore
  import opened AddrMan
  import AddrRoundTrip
  import AddrSurvivors

  /** Both assertions on the counters hold. */
  method Serialize(o: AddrMan) returns (d: Disk)
    requires AddrState.Valid(o.p, o.S())
    ensures d == Saved(o.p, o.S())
  {
    ListedCounts(o.p, o.S());
    ListedKnown(o.mapInfo, o.nIdCount, false);
    ListedKnown(o.mapInfo, o.nIdCount, true);
    var news, unkIds := StoreNew(o);
    var trieds := StoreTried(o);
    var slots := StoreSlots(o, unkIds);
    d := Disk(1, news, trieds, slots);
  }

  /** The first loop over mapInfo: entries with references, and an index for every entry. */
  method StoreNew(o: AddrMan) returns (news: seq<Stored>, unkIds: map<int, int>)
    requires o.nIdCount >= 0 && o.nNew == |Listed(o.mapInfo, o.nIdCount, false)|
    requires forall k :: 0 <= k < o.nNew ==> Listed(o.mapInfo, o.nIdCount, false)[k] in o.mapInfo
    ensures news == StashAll(o.mapInfo, Listed(o.mapInfo, o.nIdCount, false))
    ensures forall id :: id in o.mapInfo && 0 <= id < o.nIdCount ==>
      id in unkIds && unkIds[id] == Rank(o.mapInfo, id, false)
  {
    news, unkIds := [], map[];
    var nIds, id := 0, 0;
    ghost var l: seq<int> := [];
    while id < o.nIdCount
      invariant 0 <= id <= o.nIdCount && l == Listed(o.mapInfo, id, false) && nIds == |l| == |news|
      invariant forall k :: 0 <= k < |l| ==> l[k] in o.mapInfo && news[k] == Stash(o.mapInfo[l[k]])
      invariant forall k :: k in o.mapInfo && 0 <= k < id ==> k in unkIds && unkIds[k] == Rank(o.mapInfo, k, false)
    {
      if id in o.mapInfo {
        unkIds := unkIds[id := nIds];
        if o.mapInfo[id].refCount != 0 {
          RankListed(o.mapInfo, o.nIdCount, false, id);
          assert nIds != o.nNew;
          news := news + [Stash(o.mapInfo[id])];
          l := l + [id];
          nIds := nIds + 1;
        }
      }
      id := id + 1;
    }
  }

  /** The second loop over mapInfo: tried entries. */
  method StoreTried(o: AddrMan) returns (trieds: seq<Stored>)
    requires o.nIdCount >= 0 && o.nTried == |Listed(o.mapInfo, o.nIdCount, true)|
    requires forall k :: 0 <= k < o.nTried ==> Listed(o.mapInfo, o.nIdCount, true)[k] in o.mapInfo
    ensures trieds == StashAll(o.mapInfo, Listed(o.mapInfo, o.nIdCount, true))
  {
    trieds := [];
    var nIds, id := 0, 0;
    ghost var l: seq<int> := [];
    while id < o.nIdCount
      invariant 0 <= id <= o.nIdCount && l == Listed(o.mapInfo, id, true) && nIds == |l| == |trieds|
      invariant forall k :: 0 <= k < |l| ==> l[k] in o.mapInfo && trieds[k] == Stash(o.mapInfo[l[k]])
    {
      if id in o.mapInfo && o.mapInfo[id].inTried {
        RankListed(o.mapInfo, o.nIdCount, true, id);
        assert nIds != o.nTried;
        trieds := trieds + [Stash(o.mapInfo[id])];
        l := l + [id];
        nIds := nIds + 1;
      }
      id := id + 1;
    }
  }

  /** The indexes of the entries in every new bucket. */
  method StoreSlots(o: AddrMan, unkIds: map<int, int>) returns (slots: seq<seq<int>>)
    requires AddrState.Core(o.p, o.S(), {}, 0)
    requires forall id :: id in o.mapInfo && 0 <= id < o.nIdCount ==>
      id in unkIds && unkIds[id] == Rank(o.mapInfo, id, false)
    ensures slots == Saved(o.p, o.S()).slots
  {
    AddrState.NewHolders(o.p, o.S(), {}, 0);
    ghost var saved := Saved(o.p, o.S()).slots;
    slots := [];
    while |slots| < o.p.newBuckets
      invariant |slots| <= o.p.newBuckets && slots == saved[..|slots|]
    {
      var bucket := |slots|;
      var row := StoreRow(o, o.vvNew[bucket], unkIds);
      slots := slots + [row];
    }
  }

  method StoreRow(o: AddrMan, row: seq<int>, unkIds: map<int, int>) returns (indexes: seq<int>)
    requires forall i :: 0 <= i < |row| && row[i] != -1 ==>
      row[i] >= 0 && row[i] in unkIds && unkIds[row[i]] == Rank(o.mapInfo, row[i], false)
    ensures indexes == RowIndexes(o.mapInfo, row, |row|)
  {
    indexes := [];
    var i := 0;
    while i < |row|
      invariant 0 <= i <= |row| && indexes == RowIndexes(o.mapInfo, row, i)
    {
      if row[i] != -1 {
        indexes := indexes + [unkIds[row[i]]];
      }
      i := i + 1;
    }
  }

  /** Rebuilds a fresh object from a stream; nothing is assumed about the stream. */
  method Unserialize(o: AddrMan, d: Disk)
    requires o.S() == AddrState.Fresh(o.p)
    modifies o
    ensures o.S() == Loaded(o.p, d)
  {
    o.nNew, o.nTried := |d.news|, |d.trieds|;
    LoadNewEntries(o, d);
    o.nIdCount := o.nNew;
    LoadTriedEntries(o, d);
    var bucket := 0;
    while bucket < |d.slots|
      invariant 0 <= bucket <= |d.slots| && o.S() == LoadRows(o.p, d, bucket)
    {
      LoadBucket(o, d, bucket);
      bucket := bucket + 1;
    }
    RowsLined(o.p, d, |d.slots|);
    Prune(o);
  }

  method LoadNewEntries(o: AddrMan, d: Disk)
    requires o.S() == News(o.p, d, 0)
    modifies o
    ensures o.S() == News(o.p, d, |d.news|)
  {
    var n := 0;
    while n < |d.news|
      invariant 0 <= n <= |d.news| && o.S() == News(o.p, d, n)
    {
      LoadNewEntry(o, d, n);
      n := n + 1;
    }
  }

  method LoadNewEntry(o: AddrMan, d: Disk, n: nat)
    requires n < |d.news| && Shaped(o.vvNew, o.p.newBuckets, o.p.bucketSize)
    modifies o
    ensures o.S() == LoadNew(o.p, d, old(o.S()), n)
  {
    var info := Restored(d.news[n], false, |o.vRandom|);
    o.mapAddr := o.mapAddr[info.addr.net := n];
    o.vRandom := o.vRandom + [n];
    if d.version != 1 || |d.slots| != o.p.newBuckets {
      var b := NewBucket(o.p, info.addr, info.source);
      var i := Position(o.p, info.addr, true, b);
      if o.vvNew[b][i] == -1 {
        o.vvNew := SetSlot(o.vvNew, b, i, n);
        info := info.(refCount := info.refCount + 1);
      }
    }
    o.mapInfo := o.mapInfo[n := info];
  }

  method LoadTriedEntries(o: AddrMan, d: Disk)
    requires o.S() == Trieds(o.p, d, 0)
    modifies o
    ensures o.S() == Trieds(o.p, d, |d.trieds|)
  {
    var nLost, n := 0, 0;
    while n < |d.trieds|
      invariant 0 <= n <= |d.trieds| && o.S().(nTried := o.nTried - nLost) == Trieds(o.p, d, n)
    {
      ghost var s := o.S();
      var lost := LoadTriedEntry(o, d.trieds[n]);
      LostCount(o.p, d, n, s, nLost, lost, o.S());
      if lost {
        nLost := nLost + 1;
      }
      n := n + 1;
    }
    o.nTried := o.nTried - nLost;
  }

  lemma LostCount(p: ParamsOk, d: Disk, n: nat, s: AddrState.State, nLost: int, lost: bool, t: AddrState.State)
    requires n < |d.trieds| && s.(nTried := s.nTried - nLost) == Trieds(p, d, n)
    requires lost <==> s.tried[TriedBucket(p, d.trieds[n].addr)][TriedPosition(p, d.trieds[n].addr)] != -1
    requires t == if lost then s else LoadTried(p, s, d.trieds[n])
    ensures t.(nTried := t.nTried - nLost - if lost then 1 else 0) == Trieds(p, d, n + 1)
  {
    LoadTriedCount(p, s, d.trieds[n], nLost);
  }

  method LoadTriedEntry(o: AddrMan, r: Stored) returns (lost: bool)
    requires Shaped(o.vvTried, o.p.triedBuckets, o.p.bucketSize)
    modifies o
    ensures lost <==> old(o.vvTried)[TriedBucket(o.p, r.addr)][TriedPosition(o.p, r.addr)] != -1
    ensures o.S() == if lost then old(o.S()) else LoadTried(o.p, old(o.S()), r)
  {
    var info := Restored(r, true, |o.vRandom|);
    var b, i := TriedBucket(o.p, info.addr), TriedPosition(o.p, info.addr);
    lost := o.vvTried[b][i] != -1;
    if !lost {
      o.vRandom := o.vRandom + [o.nIdCount];
      o.mapInfo := o.mapInfo[o.nIdCount := info];
      o.mapAddr := o.mapAddr[info.addr.net := o.nIdCount];
      o.vvTried := SetSlot(o.vvTried, b, i, o.nIdCount);
      o.nIdCount := o.nIdCount + 1;
    }
  }

  method LoadBucket(o: AddrMan, d: Disk, bucket: nat)
    requires bucket < |d.slots| && o.S() == LoadRows(o.p, d, bucket)
    modifies o
    ensures o.S() == LoadRows(o.p, d, bucket + 1)
  {
    ghost var s := o.S();
    RowsLined(o.p, d, bucket);
    var n := 0;
    while n < |d.slots[bucket]|
      invariant 0 <= n <= |d.slots[bucket]| && o.S() == LoadRow(o.p, d, s, bucket, n)
    {
      RowLined(o.p, d, s, bucket, n);
      var index := d.slots[bucket][n];
      if 0 <= index < |d.news| {
        var info := o.mapInfo[index];
        var i := Position(o.p, info.addr, true, bucket);
        if d.version == 1 && |d.slots| == o.p.newBuckets && o.vvNew[bucket][i] == -1 && info.refCount < NEW_BUCKETS_PER_ADDRESS {
          o.mapInfo := o.mapInfo[index := info.(refCount := info.refCount + 1)];
          o.vvNew := SetSlot(o.vvNew, bucket, i, index);
        }
      }
      n := n + 1;
    }
  }

  /** Drops the entries of the new table that got no slot. */
  method Prune(o: AddrMan)
    requires RandomOk(o.mapInfo, o.vRandom) && o.nIdCount >= 0
    modifies o
    ensures o.S() == Pruned(old(o.S()), old(o.nIdCount))
  {
    ghost var s := o.S();
    var id := 0;
    while id < o.nIdCount
      invariant 0 <= id <= o.nIdCount == s.idCount && o.S() == Pruned(s, id)
      invariant RandomOk(o.mapInfo, o.vRandom)
    {
      PrunedOneRandom(o.S(), id);
      PruneOne(o, id);
      id := id + 1;
    }
  }

  method PruneOne(o: AddrMan, id: int)
    requires RandomOk(o.mapInfo, o.vRandom)
    modifies o
    ensures o.S() == PrunedOne(old(o.S()), id)
  {
    if id in o.mapInfo {
      MayDelete(o.S(), id);
      if !o.mapInfo[id].inTried && o.mapInfo[id].refCount == 0 {
        o.Delete(id);
      }
    }
  }

  /** A well-formed manager written and read back into a fresh object is the same up to renaming of
      ids: no entry is lost. */
  method SaveAndReload(o: AddrMan, target: AddrMan)
    requires o != target && target.p == o.p
    requires AddrState.Valid(o.p, o.S()) && target.S() == AddrState.Fresh(target.p)
    modifies target
    ensures AddrState.Valid(target.p, target.S()) && AddrRoundTrip.Renamed(o.p, o.S(), target.S())
  {
    AddrRoundTrip.RoundTrip(o.p, o.S());
    var d := Serialize(o);
    Unserialize(target, d);
  }

  /** The same with other parameters: the copy is well-formed whatever its table sizes and hashes are, and holds
      exactly the entries that stay. */
  method SaveAndChange(o: AddrMan, target: AddrMan) returns (ghost l: seq<nat>)
    requires o != target
    requires AddrState.Valid(o.p, o.S()) && target.S() == AddrState.Fresh(target.p)
    modifies target
    ensures AddrState.Valid(target.p, target.S())
    ensures AddrSurvivors.Survived(target.p, Saved(o.p, o.S()), l, target.S())
  {
    l := AddrSurvivors.ChangedParameters(o.p, o.S(), target.p);
    var d := Serialize(o);
    Unserialize(target, d);
  }
}
