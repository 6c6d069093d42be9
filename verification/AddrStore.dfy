/** What the address manager writes to disk and how it rebuilds itself from that.

    Ids, the tried table, the address index, the random order and the reference counts are not
    written.  The stream is a value here; its byte encoding is not modelled. */
module AddrStore {
  import opened AddrTables
  import opened AddrState

  /** The fields of an entry that are written. */
  datatype Stored = Stored(addr: Service, source: NetAddr, nTime: int, services: set<nat>, lastSuccess: int, attempts: int)

  /** The stream: entries of the new and the tried table, and for each new bucket the indexes of
      the entries in it. */
  datatype Disk = Disk(version: int, news: seq<Stored>, trieds: seq<Stored>, slots: seq<seq<int>>)

  function Stash(info: Info): Stored {
    Stored(info.addr, info.source, info.nTime, info.services, info.lastSuccess, info.attempts)
  }

  function Restored(r: Stored, inTried: bool, pos: int): Info {
    Info(r.addr, r.source, r.nTime, r.services, 0, 0, r.lastSuccess, r.attempts, 0, inTried, pos)
  }

  // ----- lists of entries, in the order of their ids --------------------------------------------------

  predicate Wanted(info: Info, tried: bool) {
    if tried then info.inTried else info.refCount != 0
  }

  /** The ids below n of the entries that go to one of the two lists. */
  function Listed(m: Infos, n: nat, tried: bool): seq<int> {
    if n == 0 then []
    else if n - 1 in m && Wanted(m[n - 1], tried) then Listed(m, n - 1, tried) + [n - 1]
    else Listed(m, n - 1, tried)
  }

  /** The place of an id in its list. */
  function Rank(m: Infos, id: nat, tried: bool): nat { |Listed(m, id, tried)| }

  lemma {:induction false} ListedElement(m: Infos, n: nat, tried: bool, k: nat)
    requires k < |Listed(m, n, tried)|
    ensures var id := Listed(m, n, tried)[k];
      0 <= id < n && id in m && Wanted(m[id], tried) && Rank(m, id, tried) == k
  {
    var init := Listed(m, n - 1, tried);
    if k < |init| {
      ListedElement(m, n - 1, tried, k);
      assert Listed(m, n, tried)[k] == init[k];
    }
  }

  lemma {:induction false} RankListed(m: Infos, n: nat, tried: bool, id: nat)
    requires id < n && id in m && Wanted(m[id], tried)
    ensures Rank(m, id, tried) < |Listed(m, n, tried)| && Listed(m, n, tried)[Rank(m, id, tried)] == id
    decreases n
  {
    if id < n - 1 {
      RankListed(m, n - 1, tried, id);
    }
  }

  /** The two lists together hold every entry once, and their lengths are the counters. */
  lemma ListedCounts(p: ParamsOk, s: State)
    requires Core(p, s, {}, 0)
    ensures |Listed(s.infos, s.idCount, false)| == s.nNew && |Listed(s.infos, s.idCount, true)| == s.nTried
    ensures forall id :: id in s.infos ==> (s.infos[id].inTried <==> s.infos[id].refCount == 0)
  {
    forall id | id in s.infos ensures s.infos[id].inTried <==> s.infos[id].refCount == 0 {
      RefsOf(p, s, {}, 0, id);
    }
    Unfold(p, s, {}, 0);
    ListedSize(s.infos, s.idCount, false, NewIds(s.infos));
    ListedSize(s.infos, s.idCount, true, TriedIds(s.infos));
  }

  lemma ListedSize(m: Infos, n: nat, tried: bool, ids: set<int>)
    requires forall id :: id in ids <==> 0 <= id < n && id in m && Wanted(m[id], tried)
    ensures |Listed(m, n, tried)| == |ids|
  {
    var l := Listed(m, n, tried);
    forall i | 0 <= i < |l| ensures l[i] in ids && Rank(m, l[i], tried) == i {
      ListedElement(m, n, tried, i);
    }
    forall id | id in ids ensures id in l {
      RankListed(m, n, tried, id);
    }
    SeqSetSize(l, ids);
  }

  // ----- Serialize -------------------------------------------------------------------------------------

  function StashAll(m: Infos, l: seq<int>): (r: seq<Stored>)
    requires forall k :: 0 <= k < |l| ==> l[k] in m
    ensures |r| == |l| && forall k :: 0 <= k < |l| ==> r[k] == Stash(m[l[k]])
  {
    seq(|l|, k requires 0 <= k < |l| => Stash(m[l[k]]))
  }

  /** The indexes written for the first i slots of a new bucket. */
  function RowIndexes(m: Infos, row: seq<int>, i: nat): seq<int>
    requires i <= |row| && forall j :: 0 <= j < |row| && row[j] != -1 ==> row[j] >= 0
  {
    if i == 0 then []
    else if row[i - 1] != -1 then RowIndexes(m, row, i - 1) + [Rank(m, row[i - 1], false)]
    else RowIndexes(m, row, i - 1)
  }

  ghost function Saved(p: ParamsOk, s: State): Disk
    requires Core(p, s, {}, 0)
  {
    ListedKnown(s.infos, s.idCount, false);
    ListedKnown(s.infos, s.idCount, true);
    NewHolders(p, s, {}, 0);
    Disk(1, StashAll(s.infos, Listed(s.infos, s.idCount, false)), StashAll(s.infos, Listed(s.infos, s.idCount, true)),
         seq(p.newBuckets, b requires 0 <= b < p.newBuckets => RowIndexes(s.infos, s.news[b], p.bucketSize)))
  }

  lemma ListedKnown(m: Infos, n: nat, tried: bool)
    ensures forall k :: 0 <= k < |Listed(m, n, tried)| ==> Listed(m, n, tried)[k] in m
  {
    forall k | 0 <= k < |Listed(m, n, tried)| ensures Listed(m, n, tried)[k] in m {
      ListedElement(m, n, tried, k);
    }
  }

  // ----- Unserialize -----------------------------------------------------------------------------------

  /** The bucket contents can be used as they are. */
  predicate Usable(p: ParamsOk, d: Disk) { d.version == 1 && |d.slots| == p.newBuckets }

  function Listing(s: State, id: int, info: Info): State {
    s.(infos := s.infos[id := info], addrs := s.addrs[info.addr.net := id], random := s.random + [id])
  }

  /** An entry of the new table; without usable buckets it gets its home slot if that is free. */
  function LoadNew(p: ParamsOk, d: Disk, s: State, n: nat): State
    requires n < |d.news| && Shaped(s.news, p.newBuckets, p.bucketSize)
  {
    var info := Restored(d.news[n], false, |s.random|);
    var b := NewBucket(p, info.addr, info.source);
    var i := Position(p, info.addr, true, b);
    if !Usable(p, d) && s.news[b][i] == -1
    then Listing(s, n, info.(refCount := 1)).(news := SetSlot(s.news, b, i, n))
    else Listing(s, n, info)
  }

  function News(p: ParamsOk, d: Disk, n: nat): (s: State)
    requires n <= |d.news|
    ensures Shaped(s.news, p.newBuckets, p.bucketSize) && Shaped(s.tried, p.triedBuckets, p.bucketSize)
    ensures s.nNew == |d.news|
  {
    if n == 0 then Fresh(p).(nNew := |d.news|, nTried := |d.trieds|) else LoadNew(p, d, News(p, d, n - 1), n - 1)
  }

  /** An entry of the tried table; it is lost if its slot is taken. */
  function LoadTried(p: ParamsOk, s: State, r: Stored): State
    requires Shaped(s.tried, p.triedBuckets, p.bucketSize)
  {
    var b, i := TriedBucket(p, r.addr), TriedPosition(p, r.addr);
    if s.tried[b][i] != -1 then s.(nTried := s.nTried - 1)
    else Listing(s, s.idCount, Restored(r, true, |s.random|)).(tried := SetSlot(s.tried, b, i, s.idCount), idCount := s.idCount + 1)
  }

  function Trieds(p: ParamsOk, d: Disk, n: nat): (s: State)
    requires n <= |d.trieds|
    ensures Shaped(s.news, p.newBuckets, p.bucketSize) && Shaped(s.tried, p.triedBuckets, p.bucketSize)
  {
    if n == 0 then News(p, d, |d.news|).(idCount := |d.news|) else LoadTried(p, Trieds(p, d, n - 1), d.trieds[n - 1])
  }

  /** One index of a new bucket. */
  function LoadSlot(p: ParamsOk, d: Disk, s: State, b: nat, index: int): (t: State)
    requires b < |d.slots| && Shaped(s.news, p.newBuckets, p.bucketSize)
    ensures Shaped(t.news, p.newBuckets, p.bucketSize)
  {
    if 0 <= index < |d.news| && index in s.infos && Usable(p, d)
      && s.news[b][Position(p, s.infos[index].addr, true, b)] == -1 && s.infos[index].refCount < NEW_BUCKETS_PER_ADDRESS
    then
      var info := s.infos[index];
      s.(infos := s.infos[index := info.(refCount := info.refCount + 1)],
         news := SetSlot(s.news, b, Position(p, info.addr, true, b), index))
    else s
  }

  function LoadRow(p: ParamsOk, d: Disk, s: State, b: nat, n: nat): (t: State)
    requires b < |d.slots| && n <= |d.slots[b]| && Shaped(s.news, p.newBuckets, p.bucketSize)
    ensures Shaped(t.news, p.newBuckets, p.bucketSize)
  {
    if n == 0 then s else LoadSlot(p, d, LoadRow(p, d, s, b, n - 1), b, d.slots[b][n - 1])
  }

  function LoadRows(p: ParamsOk, d: Disk, b: nat): (t: State)
    requires b <= |d.slots|
    ensures Shaped(t.news, p.newBuckets, p.bucketSize)
  {
    if b == 0 then Trieds(p, d, |d.trieds|) else LoadRow(p, d, LoadRows(p, d, b - 1), b - 1, |d.slots[b - 1]|)
  }

  /** Entries of the new table that got no slot are dropped. */
  function Pruned(s: State, n: nat): State {
    if n == 0 then s else PrunedOne(Pruned(s, n - 1), n - 1)
  }

  function Loaded(p: ParamsOk, d: Disk): State {
    var s := LoadRows(p, d, |d.slots|);
    Pruned(s, if s.idCount >= 0 then s.idCount else 0)
  }

  /** Apart from a loss, nTried plays no part. */
  lemma LoadTriedCount(p: ParamsOk, s: State, r: Stored, lost: int)
    requires Shaped(s.tried, p.triedBuckets, p.bucketSize)
    ensures var occupied := s.tried[TriedBucket(p, r.addr)][TriedPosition(p, r.addr)] != -1;
      var t := LoadTried(p, s.(nTried := s.nTried - lost), r);
      t == if occupied then s.(nTried := s.nTried - lost - 1) else LoadTried(p, s, r).(nTried := s.nTried - lost)
  {
  }

  // ----- any stream ---------------------------------------------------------------------------------------

  /** Ids were given out from zero on, and the random order matches. */
  ghost predicate Lined(t: State, n: int) {
    RandomOk(t.infos, t.random) && forall k :: k in t.infos <==> 0 <= k < n
  }

  lemma NewLined(p: ParamsOk, d: Disk, t: State, n: nat)
    requires n < |d.news| && Shaped(t.news, p.newBuckets, p.bucketSize) && Lined(t, n)
    ensures Lined(LoadNew(p, d, t, n), n + 1)
  {
    PushKeepsRandom(t.infos, t.random, n, LoadNew(p, d, t, n).infos[n]);
  }

  lemma TriedLined(p: ParamsOk, t: State, r: Stored)
    requires Shaped(t.tried, p.triedBuckets, p.bucketSize) && Lined(t, t.idCount) && t.idCount >= 0
    ensures var u := LoadTried(p, t, r); Lined(u, u.idCount) && u.idCount >= t.idCount
  {
    PushKeepsRandom(t.infos, t.random, t.idCount, Restored(r, true, |t.random|));
  }

  lemma NewsStep(p: ParamsOk, d: Disk, n: nat)
    requires n < |d.news|
    ensures News(p, d, n + 1) == LoadNew(p, d, News(p, d, n), n)
  {
  }

  lemma {:induction false} NewsLined(p: ParamsOk, d: Disk, n: nat)
    requires n <= |d.news|
    ensures Lined(News(p, d, n), n)
  {
    if n > 0 {
      NewsLined(p, d, n - 1);
      NewLined(p, d, News(p, d, n - 1), n - 1);
      NewsStep(p, d, n - 1);
    }
  }

  lemma {:induction false} TriedsLined(p: ParamsOk, d: Disk, n: nat)
    requires n <= |d.trieds|
    ensures var t := Trieds(p, d, n); Lined(t, t.idCount) && t.idCount >= |d.news|
  {
    if n == 0 {
      NewsLined(p, d, |d.news|);
    } else {
      TriedsLined(p, d, n - 1);
      TriedLined(p, Trieds(p, d, n - 1), d.trieds[n - 1]);
    }
  }

  lemma SlotLined(p: ParamsOk, d: Disk, t: State, b: nat, index: int)
    requires b < |d.slots| && Shaped(t.news, p.newBuckets, p.bucketSize) && Lined(t, t.idCount)
    ensures var u := LoadSlot(p, d, t, b, index); Lined(u, u.idCount) && u.idCount == t.idCount
  {
  }

  lemma {:induction false} RowLined(p: ParamsOk, d: Disk, t: State, b: nat, n: nat)
    requires b < |d.slots| && n <= |d.slots[b]| && Shaped(t.news, p.newBuckets, p.bucketSize) && Lined(t, t.idCount)
    ensures var u := LoadRow(p, d, t, b, n); Lined(u, u.idCount) && u.idCount == t.idCount
    decreases n
  {
    if n > 0 {
      RowLined(p, d, t, b, n - 1);
      SlotLined(p, d, LoadRow(p, d, t, b, n - 1), b, d.slots[b][n - 1]);
    }
  }

  lemma {:induction false} RowsLined(p: ParamsOk, d: Disk, b: nat)
    requires b <= |d.slots|
    ensures var t := LoadRows(p, d, b); Lined(t, t.idCount) && t.idCount >= |d.news|
  {
    if b == 0 {
      TriedsLined(p, d, |d.trieds|);
    } else {
      RowsLined(p, d, b - 1);
      RowLined(p, d, LoadRows(p, d, b - 1), b - 1, |d.slots[b - 1]|);
    }
  }

  /** The assertions of Delete hold for every entry the pruning loop finds. */
  lemma MayDelete(t: State, id: int)
    requires RandomOk(t.infos, t.random) && id in t.infos
    ensures CanDelete(t, id) <==> !t.infos[id].inTried && t.infos[id].refCount == 0
  {
    assert t.random[|t.random| - 1] in t.infos;
  }

  lemma DeleteRandom(t: State, id: int)
    requires RandomOk(t.infos, t.random) && CanDelete(t, id)
    ensures RandomOk(Delete(t, id).infos, Delete(t, id).random) && Delete(t, id).idCount == t.idCount
  {
    var i, j := t.infos[id].randomPos, |t.random| - 1;
    if i != j {
      SwapKeepsRandom(t.infos, t.random, i, j);
    }
    var u := SwapRandom(t, i, j);
    PopKeepsRandom(u.infos, u.random, id);
  }

  function PrunedOne(t: State, id: int): State {
    if id in t.infos && CanDelete(t, id) then Delete(t, id) else t
  }

  lemma PrunedOneRandom(t: State, id: int)
    requires RandomOk(t.infos, t.random)
    ensures var u := PrunedOne(t, id); RandomOk(u.infos, u.random) && u.idCount == t.idCount
  {
    if id in t.infos && CanDelete(t, id) {
      DeleteRandom(t, id);
    }
  }
}
