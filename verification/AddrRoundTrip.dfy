/** Reading the new table back, and the round trip of the address manager through its stream. */
module AddrRoundTrip {
  import opened AddrTables
  import opened AddrState
  import opened AddrStore
  import opened AddrReload

  // ----- reading the new buckets ---------------------------------------------------------------------------------

  /** g is the new table with every id replaced by its new id. */
  ghost predicate Goal(p: ParamsOk, s: State, l: seq<int>, g: Table) {
    && Shaped(g, p.newBuckets, p.bucketSize) && Shaped(s.news, p.newBuckets, p.bucketSize) && Ordered(s, l)
    && (forall b, i :: 0 <= b < p.newBuckets && 0 <= i < p.bucketSize ==> (g[b][i] == -1 <==> s.news[b][i] == -1))
    && (forall b, i :: 0 <= b < p.newBuckets && 0 <= i < p.bucketSize && g[b][i] != -1 ==>
          0 <= g[b][i] < s.nNew && l[g[b][i]] == s.news[b][i])
  }

  /** All of g before slot i of bucket b, and nothing after. */
  ghost predicate Filled(p: ParamsOk, g: Table, news: Table, b: int, i: int) {
    && Shaped(g, p.newBuckets, p.bucketSize) && Shaped(news, p.newBuckets, p.bucketSize)
    && forall c, j :: 0 <= c < p.newBuckets && 0 <= j < p.bucketSize ==>
         news[c][j] == if c < b || (c == b && j < i) then g[c][j] else -1
  }

  /** What holds while slots are read. */
  datatype Filler = HasEntries | HasLinks | HasCounters | HasSlots

  ghost predicate Has(p: ParamsOk, s: State, l: seq<int>, g: Table, t: State, b: int, i: int, filler: Filler) {
    match filler
    case HasEntries => Entries(s, l, t, |l|)
    case HasLinks => Indexed(p, t, |l|)
    case HasCounters => SameCounters(s, t) && t.idCount == |l|
    case HasSlots => Filled(p, g, t.news, b, i)
  }

  ghost predicate Filling(p: ParamsOk, s: State, l: seq<int>, g: Table, t: State, b: int, i: int) {
    && Shaped(t.tried, p.triedBuckets, p.bucketSize) && Shaped(t.news, p.newBuckets, p.bucketSize)
    && forall filler :: Has(p, s, l, g, t, b, i, filler)
  }

  lemma UnfoldFilling(p: ParamsOk, s: State, l: seq<int>, g: Table, t: State, b: int, i: int)
    requires Filling(p, s, l, g, t, b, i)
    ensures Entries(s, l, t, |l|) && Indexed(p, t, |l|) && SameCounters(s, t) && t.idCount == |l|
    ensures Filled(p, g, t.news, b, i)
  {
    assert Has(p, s, l, g, t, b, i, HasEntries) && Has(p, s, l, g, t, b, i, HasLinks);
    assert Has(p, s, l, g, t, b, i, HasCounters) && Has(p, s, l, g, t, b, i, HasSlots);
  }

  lemma FoldFilling(p: ParamsOk, s: State, l: seq<int>, g: Table, t: State, b: int, i: int)
    requires Entries(s, l, t, |l|) && Indexed(p, t, |l|) && SameCounters(s, t) && t.idCount == |l|
    requires Filled(p, g, t.news, b, i)
    ensures Filling(p, s, l, g, t, b, i)
  {
  }

  /** The next slot to fill is not the ninth of its entry. */
  lemma RoomLeft(p: ParamsOk, s: State, l: seq<int>, g: Table, t: State, b: nat, i: nat)
    requires Core(p, s, {}, 0) && Goal(p, s, l, g) && Filling(p, s, l, g, t, b, i)
    requires b < p.newBuckets && i < p.bucketSize && g[b][i] != -1
    ensures var k := g[b][i];
      && k in t.infos && !t.infos[k].inTried && Position(p, t.infos[k].addr, true, b) == i && t.news[b][i] == -1
      && t.infos[k].refCount < NEW_BUCKETS_PER_ADDRESS
  {
    UnfoldFilling(p, s, l, g, t, b, i);
    var k := g[b][i];
    var id := l[k];
    var a := s.infos[id].addr;
    SlotPlace(p, s, b, i);
    RefsOf(p, s, {}, 0, id);
    CountOf(p, t, |l|, k);
    var before, all := Buckets(p, t.news, k, a), Buckets(p, s.news, id, a);
    assert b in all && b !in before;
    FilledBefore(p, s, l, g, t.news, b, i, k, a);
    SubsetSize(before, all - {b});
  }

  /** The slot of an entry in a new bucket is at its position. */
  lemma SlotPlace(p: ParamsOk, s: State, b: nat, i: nat)
    requires Core(p, s, {}, 0) && b < p.newBuckets && i < p.bucketSize && s.news[b][i] != -1
    ensures s.news[b][i] in s.infos && Position(p, s.infos[s.news[b][i]].addr, true, b) == i
  {
    Unfold(p, s, {}, 0);
  }

  lemma CountOf(p: ParamsOk, t: State, n: nat, k: int)
    requires Indexed(p, t, n) && k in t.infos
    ensures t.infos[k].refCount == |Buckets(p, t.news, k, t.infos[k].addr)|
  {
    UnfoldIndexed(p, t, n);
    assert RefsOk(p, t.infos[k], t.news, k, k in Below(n));
  }

  /** What is filled so far is part of the goal. */
  lemma FilledBefore(p: ParamsOk, s: State, l: seq<int>, g: Table, news: Table, b: nat, i: nat, k: nat, a: Service)
    requires Goal(p, s, l, g) && Filled(p, g, news, b, i) && b < p.newBuckets && i < p.bucketSize && k < |l|
    requires Position(p, a, true, b) == i
    ensures Buckets(p, news, k, a) <= Buckets(p, s.news, l[k], a) - {b}
  {
  }

  lemma {:induction false} SubsetSize(a: set<nat>, b: set<nat>)
    requires a <= b
    ensures |a| <= |b|
    decreases |a|
  {
    if a != {} {
      var x :| x in a;
      SubsetSize(a - {x}, b - {x});
    }
  }

  lemma FilledGrows(p: ParamsOk, g: Table, news: Table, b: nat, i: nat)
    requires Filled(p, g, news, b, i) && b < p.newBuckets && i < p.bucketSize
    ensures Filled(p, g, SetSlot(news, b, i, g[b][i]), b, i + 1)
    ensures g[b][i] == -1 ==> Filled(p, g, news, b, i + 1)
  {
  }

  /** One more reference for entry k, in slot i of bucket b. */
  function OneMore(p: ParamsOk, t: State, k: int, b: nat, i: nat): State
    requires k in t.infos && InTable(t.news, b, i)
  {
    t.(infos := t.infos[k := t.infos[k].(refCount := t.infos[k].refCount + 1)], news := SetSlot(t.news, b, i, k))
  }

  lemma OneMoreIndexed(p: ParamsOk, t: State, n: nat, k: int, b: nat, i: nat)
    requires Indexed(p, t, n) && k in t.infos && !t.infos[k].inTried && -1 !in t.infos
    requires b < p.newBuckets && Position(p, t.infos[k].addr, true, b) == i && t.news[b][i] == -1
    requires t.infos[k].refCount < NEW_BUCKETS_PER_ADDRESS
    ensures Indexed(p, OneMore(p, t, k, b, i), n)
  {
    OneMoreTable(p, t, n, k, b, i);
    OneMoreRest(p, t, OneMore(p, t, k, b, i), n, k);
  }

  lemma OneMoreTable(p: ParamsOk, t: State, n: nat, k: int, b: nat, i: nat)
    requires Indexed(p, t, n) && k in t.infos && !t.infos[k].inTried && -1 !in t.infos
    requires b < p.newBuckets && Position(p, t.infos[k].addr, true, b) == i && t.news[b][i] == -1
    requires t.infos[k].refCount < NEW_BUCKETS_PER_ADDRESS
    ensures NewOk(p, OneMore(p, t, k, b, i).infos, OneMore(p, t, k, b, i).news, Below(n))
  {
    UnfoldIndexed(p, t, n);
    FillSlotKeepsNew(p, t.infos, t.news, Below(n), k, b);
    var u := OneMore(p, t, k, b, i);
    Loosen(p, u.infos, u.news, Below(n) - {k}, Below(n));
  }

  lemma OneMoreRest(p: ParamsOk, t: State, u: State, n: nat, k: int)
    requires Indexed(p, t, n) && k in t.infos && !t.infos[k].inTried && k in u.infos
    requires u == t.(infos := t.infos[k := t.infos[k].(refCount := u.infos[k].refCount)], news := u.news)
    requires NewOk(p, u.infos, u.news, Below(n))
    ensures Indexed(p, u, n)
  {
    UnfoldIndexed(p, t, n);
    RefCountIsPrivate(p, t.infos, k, u.infos[k].refCount, t.random, t.addrs, t.idCount, t.tried);
    FoldIndexed(p, u, n);
  }

  lemma FillOne(p: ParamsOk, s: State, l: seq<int>, g: Table, d: Disk, t: State, b: nat, i: nat) returns (u: State)
    requires Core(p, s, {}, 0) && Goal(p, s, l, g) && Usable(p, d) && |d.news| == s.nNew
    requires Filling(p, s, l, g, t, b, i) && b < p.newBuckets && i < p.bucketSize && g[b][i] != -1
    ensures u == LoadSlot(p, d, t, b, g[b][i]) && Filling(p, s, l, g, u, b, i + 1)
  {
    var k := g[b][i];
    RoomLeft(p, s, l, g, t, b, i);
    UnfoldFilling(p, s, l, g, t, b, i);
    u := OneMore(p, t, k, b, i);
    SlotLoads(p, d, t, k, b, i);
    OneMoreIndexed(p, t, |l|, k, b, i);
    FilledGrows(p, g, t.news, b, i);
    CountStays(p, s, l, t, k, b, i);
    FoldFilling(p, s, l, g, u, b, i + 1);
  }

  lemma SlotLoads(p: ParamsOk, d: Disk, t: State, k: int, b: nat, i: nat)
    requires Usable(p, d) && 0 <= k < |d.news| && k in t.infos && b < p.newBuckets && Shaped(t.news, p.newBuckets, p.bucketSize)
    requires Position(p, t.infos[k].addr, true, b) == i && t.news[b][i] == -1 && t.infos[k].refCount < NEW_BUCKETS_PER_ADDRESS
    ensures LoadSlot(p, d, t, b, k) == OneMore(p, t, k, b, i)
  {
  }

  lemma CountStays(p: ParamsOk, s: State, l: seq<int>, t: State, k: int, b: nat, i: nat)
    requires Entries(s, l, t, |l|) && k in t.infos && InTable(t.news, b, i)
    ensures Entries(s, l, OneMore(p, t, k, b, i), |l|)
  {
  }

  /** The occupied slots among the first i of a row. */
  function Occupied(row: seq<int>, i: nat): seq<int>
    requires i <= |row|
  {
    if i == 0 then []
    else if row[i - 1] != -1 then Occupied(row, i - 1) + [row[i - 1]]
    else Occupied(row, i - 1)
  }

  lemma {:induction false} OccupiedNext(row: seq<int>, i: nat, n: nat)
    requires i < n <= |row| && row[i] != -1
    ensures |Occupied(row, i)| < |Occupied(row, n)| && Occupied(row, n)[|Occupied(row, i)|] == row[i]
    decreases n
  {
    if i < n - 1 {
      OccupiedNext(row, i, n - 1);
    }
  }

  ghost predicate SlotsWritten(p: ParamsOk, g: Table, d: Disk) {
    && Shaped(g, p.newBuckets, p.bucketSize) && |d.slots| == p.newBuckets
    && forall b :: 0 <= b < p.newBuckets ==> d.slots[b] == Occupied(g[b], p.bucketSize)
  }

  lemma RowStep(p: ParamsOk, d: Disk, t: State, b: nat, n: nat)
    requires b < |d.slots| && n < |d.slots[b]| && Shaped(t.news, p.newBuckets, p.bucketSize)
    ensures LoadRow(p, d, t, b, n + 1) == LoadSlot(p, d, LoadRow(p, d, t, b, n), b, d.slots[b][n])
  {
  }

  lemma {:induction false} OccupiedLength(row: seq<int>, i: nat, n: nat)
    requires i <= n <= |row|
    ensures |Occupied(row, i)| <= |Occupied(row, n)|
    decreases n
  {
    if i < n {
      OccupiedLength(row, i, n - 1);
    }
  }

  lemma Skip(p: ParamsOk, s: State, l: seq<int>, g: Table, t: State, b: nat, i: nat)
    requires Shaped(g, p.newBuckets, p.bucketSize) && Filling(p, s, l, g, t, b, i) && b < p.newBuckets && i < p.bucketSize && g[b][i] == -1
    ensures Filling(p, s, l, g, t, b, i + 1)
  {
    UnfoldFilling(p, s, l, g, t, b, i);
    FilledGrows(p, g, t.news, b, i);
    FoldFilling(p, s, l, g, t, b, i + 1);
  }

  lemma RowNext(p: ParamsOk, s: State, l: seq<int>, g: Table, d: Disk, t: State, before: State, b: nat, i: nat) returns (u: State)
    requires Core(p, s, {}, 0) && Goal(p, s, l, g) && Usable(p, d) && |d.news| == s.nNew && SlotsWritten(p, g, d)
    requires b < p.newBuckets && i < p.bucketSize && Shaped(t.news, p.newBuckets, p.bucketSize)
    requires |Occupied(g[b], i)| <= |d.slots[b]|
    requires before == LoadRow(p, d, t, b, |Occupied(g[b], i)|) && Filling(p, s, l, g, before, b, i)
    ensures |Occupied(g[b], i + 1)| <= |d.slots[b]|
    ensures u == LoadRow(p, d, t, b, |Occupied(g[b], i + 1)|) && Filling(p, s, l, g, u, b, i + 1)
  {
    OccupiedLength(g[b], i + 1, p.bucketSize);
    var n := |Occupied(g[b], i)|;
    if g[b][i] == -1 {
      Skip(p, s, l, g, before, b, i);
      u := before;
    } else {
      OccupiedNext(g[b], i, p.bucketSize);
      assert n < |d.slots[b]| && d.slots[b][n] == g[b][i] && |Occupied(g[b], i + 1)| == n + 1;
      RowStep(p, d, t, b, n);
      u := FillOne(p, s, l, g, d, before, b, i);
    }
  }

  lemma RowRead(p: ParamsOk, s: State, l: seq<int>, g: Table, d: Disk, t: State, b: nat) returns (u: State)
    requires Core(p, s, {}, 0) && Goal(p, s, l, g) && Usable(p, d) && |d.news| == s.nNew && SlotsWritten(p, g, d)
    requires b < p.newBuckets && Filling(p, s, l, g, t, b, 0)
    ensures u == LoadRow(p, d, t, b, |d.slots[b]|) && Filling(p, s, l, g, u, b + 1, 0)
  {
    u := t;
    var i := 0;
    while i < p.bucketSize
      invariant 0 <= i <= p.bucketSize && |Occupied(g[b], i)| <= |d.slots[b]|
      invariant u == LoadRow(p, d, t, b, |Occupied(g[b], i)|) && Filling(p, s, l, g, u, b, i)
    {
      u := RowNext(p, s, l, g, d, t, u, b, i);
      i := i + 1;
    }
    RowDone(p, s, l, g, u, b);
  }

  lemma RowDone(p: ParamsOk, s: State, l: seq<int>, g: Table, t: State, b: nat)
    requires Filling(p, s, l, g, t, b, p.bucketSize)
    ensures Filling(p, s, l, g, t, b + 1, 0)
  {
    UnfoldFilling(p, s, l, g, t, b, p.bucketSize);
    FoldFilling(p, s, l, g, t, b + 1, 0);
  }

  lemma RowsStep(p: ParamsOk, d: Disk, b: nat)
    requires b < |d.slots|
    ensures LoadRows(p, d, b + 1) == LoadRow(p, d, LoadRows(p, d, b), b, |d.slots[b]|)
  {
  }

  lemma RowsStart(p: ParamsOk, s: State, l: seq<int>, g: Table, d: Disk) returns (t: State)
    requires Core(p, s, {}, 0) && Goal(p, s, l, g) && Written(p, s, l, d)
    ensures t == LoadRows(p, d, 0) && Filling(p, s, l, g, t, 0, 0)
  {
    RowsZero(p, d);
    t := TriedsRead(p, s, l, d);
    StartsFilling(p, s, l, g, t);
  }

  lemma StartsFilling(p: ParamsOk, s: State, l: seq<int>, g: Table, t: State)
    requires |l| >= s.nNew >= 0 && ReadingTrieds(p, s, l, t, |l| - s.nNew) && Shaped(g, p.newBuckets, p.bucketSize)
    ensures Filling(p, s, l, g, t, 0, 0)
  {
    UnfoldReading(p, s, l, t, |l|);
    NothingFilled(p, g, t.news);
    FoldFilling(p, s, l, g, t, 0, 0);
  }

  lemma RowsZero(p: ParamsOk, d: Disk)
    ensures LoadRows(p, d, 0) == Trieds(p, d, |d.trieds|)
  {
  }

  lemma NothingFilled(p: ParamsOk, g: Table, news: Table)
    requires AllEmpty(p, news) && Shaped(g, p.newBuckets, p.bucketSize)
    ensures Filled(p, g, news, 0, 0)
  {
  }

  /** One more bucket. */
  lemma RowsNext(p: ParamsOk, s: State, l: seq<int>, g: Table, d: Disk, t: State, b: nat) returns (u: State)
    requires Core(p, s, {}, 0) && Goal(p, s, l, g) && Usable(p, d) && |d.news| == s.nNew && SlotsWritten(p, g, d)
    requires b < p.newBuckets && t == LoadRows(p, d, b) && Filling(p, s, l, g, t, b, 0)
    ensures u == LoadRows(p, d, b + 1) && Filling(p, s, l, g, u, b + 1, 0)
  {
    RowsStep(p, d, b);
    u := RowRead(p, s, l, g, d, t, b);
  }

  lemma RowsRead(p: ParamsOk, s: State, l: seq<int>, g: Table, d: Disk) returns (t: State)
    requires Core(p, s, {}, 0)
    requires Goal(p, s, l, g) && Written(p, s, l, d) && SlotsWritten(p, g, d)
    ensures t == LoadRows(p, d, p.newBuckets) && Filling(p, s, l, g, t, p.newBuckets, 0)
  {
    t := RowsStart(p, s, l, g, d);
    var b := 0;
    while b < p.newBuckets
      invariant 0 <= b <= p.newBuckets && t == LoadRows(p, d, b) && Filling(p, s, l, g, t, b, 0)
    {
      t := RowsNext(p, s, l, g, d, t, b);
      b := b + 1;
    }
  }

  // ----- the round trip -------------------------------------------------------------------------------------------------

  /** The same manager with other ids: every entry is there once with everything that is written,
      its flag and its reference count, and both tables hold the same entries in the same slots. */
  ghost predicate Renamed(p: ParamsOk, s: State, t: State) {
    && Shaped(s.news, p.newBuckets, p.bucketSize) && Shaped(t.news, p.newBuckets, p.bucketSize)
    && Shaped(s.tried, p.triedBuckets, p.bucketSize) && Shaped(t.tried, p.triedBuckets, p.bucketSize)
    && |t.infos| == |s.infos| && t.nNew == s.nNew && t.nTried == s.nTried
    && (forall id :: id in s.infos ==> SameEntry(s, t, id))
    && (forall b, i :: 0 <= b < p.newBuckets && 0 <= i < p.bucketSize ==> SameSlot(s, s.news[b][i], t.news[b][i]))
    && (forall b, i :: 0 <= b < p.triedBuckets && 0 <= i < p.bucketSize ==> SameSlot(s, s.tried[b][i], t.tried[b][i]))
  }

  ghost predicate SameEntry(s: State, t: State, id: int)
    requires id in s.infos
  {
    && id >= 0 && NewId(s, id) in t.infos
    && t.infos[NewId(s, id)] == s.infos[id].(lastTry := 0, lastCountAttempt := 0, randomPos := NewId(s, id))
  }

  ghost predicate SameSlot(s: State, id: int, k: int) {
    if id == -1 then k == -1 else id in s.infos && id >= 0 && k == NewId(s, id)
  }

  lemma {:induction false} RowIndexesAre(m: Infos, row: seq<int>, r: seq<int>, i: nat)
    requires i <= |row| == |r| && forall j :: 0 <= j < |row| && row[j] != -1 ==> row[j] >= 0
    requires forall j :: 0 <= j < |row| ==> r[j] == if row[j] == -1 then -1 else Rank(m, row[j], false)
    ensures RowIndexes(m, row, i) == Occupied(r, i)
    decreases i
  {
    if i > 0 {
      RowIndexesAre(m, row, r, i - 1);
    }
  }

  /** The renamed new table. */
  ghost function Goals(p: ParamsOk, s: State): (g: Table)
    requires Core(p, s, {}, 0)
    ensures Shaped(g, p.newBuckets, p.bucketSize)
    ensures forall b, i :: 0 <= b < p.newBuckets && 0 <= i < p.bucketSize ==>
      g[b][i] == if s.news[b][i] < 0 then -1 else Rank(s.infos, s.news[b][i], false)
  {
    seq(p.newBuckets, b requires 0 <= b < p.newBuckets =>
      seq(p.bucketSize, i requires 0 <= i < p.bucketSize => if s.news[b][i] < 0 then -1 else Rank(s.infos, s.news[b][i], false)))
  }

  lemma GoalIs(p: ParamsOk, s: State, l: seq<int>)
    requires Core(p, s, {}, 0) && Ordered(s, l)
    requires forall id :: id in s.infos ==> id >= 0 && 0 <= NewId(s, id) < |l| && l[NewId(s, id)] == id
    ensures Goal(p, s, l, Goals(p, s))
  {
    NewHolders(p, s, {}, 0);
    var g := Goals(p, s);
    forall b, i | 0 <= b < p.newBuckets && 0 <= i < p.bucketSize && g[b][i] != -1
      ensures 0 <= g[b][i] < s.nNew && l[g[b][i]] == s.news[b][i]
    {
      assert g[b][i] == NewId(s, s.news[b][i]);
    }
  }

  lemma SlotsAre(p: ParamsOk, s: State)
    requires Core(p, s, {}, 0)
    ensures SlotsWritten(p, Goals(p, s), Saved(p, s))
  {
    NewHolders(p, s, {}, 0);
    var g := Goals(p, s);
    forall b | 0 <= b < p.newBuckets ensures Saved(p, s).slots[b] == Occupied(g[b], p.bucketSize) {
      RowIndexesAre(s.infos, s.news[b], g[b], p.bucketSize);
    }
  }

  lemma ListsAre(p: ParamsOk, s: State, l: seq<int>)
    requires Core(p, s, {}, 0) && Ordered(s, l)
    requires l == Listed(s.infos, s.idCount, false) + Listed(s.infos, s.idCount, true)
    ensures Written(p, s, l, Saved(p, s))
  {
    ListedCounts(p, s);
    var l1, l2 := Listed(s.infos, s.idCount, false), Listed(s.infos, s.idCount, true);
    ListedKnown(s.infos, s.idCount, false);
    ListedKnown(s.infos, s.idCount, true);
    JoinedLists(s, l1, l2, Saved(p, s));
  }

  lemma JoinedLists(s: State, l1: seq<int>, l2: seq<int>, d: Disk)
    requires Ordered(s, l1 + l2) && |l1| == s.nNew && |l2| == s.nTried
    requires (forall k :: 0 <= k < |l1| ==> l1[k] in s.infos) && forall k :: 0 <= k < |l2| ==> l2[k] in s.infos
    requires d.news == StashAll(s.infos, l1) && d.trieds == StashAll(s.infos, l2)
    ensures |d.news| == s.nNew && |d.trieds| == s.nTried
    ensures forall k :: 0 <= k < s.nNew ==> d.news[k] == Stash(s.infos[(l1 + l2)[k]])
    ensures forall k :: 0 <= k < s.nTried ==> d.trieds[k] == Stash(s.infos[(l1 + l2)[s.nNew + k]])
  {
    var l := l1 + l2;
    assert forall k :: 0 <= k < |l1| ==> l[k] == l1[k];
    assert forall k :: 0 <= k < |l2| ==> l[|l1| + k] == l2[k];
  }

  /** Reference counts are recovered. */
  lemma CountsRecovered(p: ParamsOk, s: State, l: seq<int>, t: State, k: nat)
    requires Core(p, s, {}, 0) && Goal(p, s, l, t.news) && k < |l| && l[k] != -1
    requires Indexed(p, t, |l|) && k in t.infos && t.infos[k].addr == s.infos[l[k]].addr
    ensures t.infos[k].refCount == s.infos[l[k]].refCount
    ensures s.infos[l[k]].refCount >= 1 || s.infos[l[k]].inTried
  {
    var a := s.infos[l[k]].addr;
    RefsOf(p, s, {}, 0, l[k]);
    CountOf(p, t, |l|, k);
    SameBuckets(p, s, l, t.news, k, a);
  }

  lemma SameBuckets(p: ParamsOk, s: State, l: seq<int>, g: Table, k: nat, a: Service)
    requires Goal(p, s, l, g) && k < |l| && l[k] != -1
    ensures Buckets(p, g, k, a) == Buckets(p, s.news, l[k], a)
  {
    forall c: nat | c < p.newBuckets ensures g[c][Position(p, a, true, c)] == k <==> s.news[c][Position(p, a, true, c)] == l[k] {
      var i := Position(p, a, true, c);
      assert g[c][i] != -1 ==> l[g[c][i]] == s.news[c][i];
    }
  }

  lemma NewTableIs(p: ParamsOk, s: State, l: seq<int>, g: Table, t: State)
    requires Goal(p, s, l, g) && Filled(p, g, t.news, p.newBuckets, 0)
    ensures Goal(p, s, l, t.news)
    ensures forall b, i :: 0 <= b < p.newBuckets && 0 <= i < p.bucketSize ==> t.news[b][i] == g[b][i]
  {
  }

  /** Every reference count is that of the original, so every untried entry has a slot. */
  lemma AllCountsRecovered(p: ParamsOk, s: State, l: seq<int>, t: State)
    requires Core(p, s, {}, 0) && Goal(p, s, l, t.news) && Entries(s, l, t, |l|) && Indexed(p, t, |l|)
    ensures forall k :: k in t.infos ==> t.infos[k].refCount == s.infos[l[k]].refCount
    ensures forall k :: k in t.infos && !t.infos[k].inTried ==> t.infos[k].refCount >= 1
  {
    forall k | k in t.infos
      ensures t.infos[k].refCount == s.infos[l[k]].refCount && (!t.infos[k].inTried ==> t.infos[k].refCount >= 1)
    {
      DatesOf(p, s, {}, 0, l[k]);
      CountsRecovered(p, s, l, t, k);
    }
  }

  lemma NoneLoose(p: ParamsOk, m: Infos, news: Table, loose: set<int>)
    requires NewOk(p, m, news, loose) && forall k :: k in m && !m[k].inTried ==> m[k].refCount >= 1
    ensures NewOk(p, m, news, {})
  {
    forall k | k in m ensures RefsOk(p, m[k], news, k, k in {}) {
      assert RefsOk(p, m[k], news, k, k in loose);
    }
  }

  lemma CountsAre(s: State, l: seq<int>, t: State)
    requires Ordered(s, l) && Entries(s, l, t, |l|)
    ensures |NewIds(t.infos)| == s.nNew && |TriedIds(t.infos)| == s.nTried && |t.infos| == |l|
  {
    FlagCounts(t.infos, s.nNew, |l|);
  }

  lemma FlagCounts(m: Infos, a: nat, n: nat)
    requires a <= n && (forall k :: k in m <==> 0 <= k < n) && forall k :: k in m ==> (m[k].inTried <==> k >= a)
    ensures |NewIds(m)| == a && |TriedIds(m)| == n - a && |m| == n
  {
    forall k ensures k in NewIds(m) <==> k in Below(a) { }
    assert NewIds(m) == Below(a);
    forall k ensures k in TriedIds(m) <==> k in Below(n) - Below(a) { }
    assert TriedIds(m) == Below(n) - Below(a);
    RangeSize(a, n);
    assert m.Keys == Below(n);
  }

  lemma RangeSize(m: nat, n: nat)
    requires m <= n
    ensures |Below(n) - Below(m)| == n - m
  {
    assert Below(n) == Below(m) + (Below(n) - Below(m));
  }

  lemma InfosOk(p: ParamsOk, s: State, l: seq<int>, t: State)
    requires Core(p, s, {}, 0) && Ordered(s, l) && Entries(s, l, t, |l|)
    ensures InfoOk(t.infos, |l|)
  {
    forall k | k in t.infos
      ensures t.infos[k].lastTry >= 0 && t.infos[k].lastSuccess >= 0 && (t.infos[k].inTried ==> t.infos[k].lastSuccess != 0)
    {
      DatesOf(p, s, {}, 0, l[k]);
    }
  }

  lemma RecoveredValid(p: ParamsOk, s: State, l: seq<int>, g: Table, t: State)
    requires Core(p, s, {}, 0)
    requires Goal(p, s, l, g) && Filling(p, s, l, g, t, p.newBuckets, 0)
    ensures Valid(p, t) && t.idCount == |l| && forall k :: k in t.infos && !t.infos[k].inTried ==> t.infos[k].refCount >= 1
  {
    UnfoldFilling(p, s, l, g, t, p.newBuckets, 0);
    NewTableIs(p, s, l, g, t);
    AllCountsRecovered(p, s, l, t);
    CountsAre(s, l, t);
    InfosOk(p, s, l, t);
    IndexedIsCore(p, t, |l|);
  }

  lemma IndexedIsCore(p: ParamsOk, t: State, n: nat)
    requires Indexed(p, t, n) && InfoOk(t.infos, t.idCount) && CountsOk(t.infos, t.nTried, t.nNew, 0)
    requires forall k :: k in t.infos && !t.infos[k].inTried ==> t.infos[k].refCount >= 1
    ensures Core(p, t, {}, 0)
  {
    UnfoldIndexed(p, t, n);
    NoneLoose(p, t.infos, t.news, Below(n));
    Fold(p, t, {}, 0);
  }

  lemma {:induction false} NothingToPrune(t: State, n: nat)
    requires forall k :: k in t.infos && !t.infos[k].inTried ==> t.infos[k].refCount >= 1
    ensures Pruned(t, n) == t
    decreases n
  {
    if n > 0 {
      NothingToPrune(t, n - 1);
    }
  }

  lemma EntriesSame(p: ParamsOk, s: State, l: seq<int>, t: State, id: int)
    requires Ordered(s, l) && Entries(s, l, t, |l|) && id in s.infos && id >= 0
    requires 0 <= NewId(s, id) < |l| && l[NewId(s, id)] == id
    requires t.infos[NewId(s, id)].refCount == s.infos[id].refCount
    ensures SameEntry(s, t, id)
  {
  }

  lemma SlotOfIndexed(p: ParamsOk, t: State, n: nat, k: int)
    requires Indexed(p, t, n) && k in t.infos && t.infos[k].inTried
    ensures t.tried[TriedBucket(p, t.infos[k].addr)][TriedPosition(p, t.infos[k].addr)] == k
  {
    UnfoldIndexed(p, t, n);
  }

  lemma TriedSlotsSame(p: ParamsOk, s: State, l: seq<int>, t: State, b: nat, i: nat)
    requires Core(p, s, {}, 0) && Indexed(p, t, |l|) && Ordered(s, l) && Entries(s, l, t, |l|)
    requires forall id :: id in s.infos ==> id >= 0 && 0 <= NewId(s, id) < |l| && l[NewId(s, id)] == id
    requires b < p.triedBuckets && i < p.bucketSize
    ensures SameSlot(s, s.tried[b][i], t.tried[b][i])
  {
    var id, k := s.tried[b][i], t.tried[b][i];
    SlotKnown(p, t, |l|, b, i);
    if k != -1 {
      TriedSlotOf(p, s, {}, 0, l[k]);
    }
    if id != -1 {
      TriedHolder(p, s, {}, 0, b, i);
      SlotOfIndexed(p, t, |l|, NewId(s, id));
    }
  }

  /** Writing a well-formed manager and reading it into a fresh object loses nothing: the result is
      well-formed and is the same manager up to renaming of ids, although ids, the tried table,
      the address index, the random order and the reference counts are not written. */
  lemma RoundTrip(p: ParamsOk, s: State)
    requires Core(p, s, {}, 0)
    ensures Valid(p, Loaded(p, Saved(p, s))) && Renamed(p, s, Loaded(p, Saved(p, s)))
  {
    var l := OrderIs(p, s);
    var g, d := Goals(p, s), Saved(p, s);
    GoalIs(p, s, l);
    SlotsAre(p, s);
    ListsAre(p, s, l);
    var t := RowsRead(p, s, l, g, d);
    RecoveredValid(p, s, l, g, t);
    NothingToPrune(t, |l|);
    assert Loaded(p, d) == t;
    RecoveredRenamed(p, s, l, g, t);
  }

  lemma EntriesRecovered(p: ParamsOk, s: State, l: seq<int>, t: State)
    requires Core(p, s, {}, 0) && Goal(p, s, l, t.news) && Entries(s, l, t, |l|) && Indexed(p, t, |l|)
    requires forall id :: id in s.infos ==> id >= 0 && 0 <= NewId(s, id) < |l| && l[NewId(s, id)] == id
    ensures forall id :: id in s.infos ==> SameEntry(s, t, id)
  {
    AllCountsRecovered(p, s, l, t);
    forall id | id in s.infos ensures SameEntry(s, t, id) {
      EntriesSame(p, s, l, t, id);
    }
  }

  lemma NewSlotsRecovered(p: ParamsOk, s: State, l: seq<int>, g: Table, t: State)
    requires Core(p, s, {}, 0) && g == Goals(p, s) && Goal(p, s, l, g) && Filled(p, g, t.news, p.newBuckets, 0)
    ensures forall b, i :: 0 <= b < p.newBuckets && 0 <= i < p.bucketSize ==> SameSlot(s, s.news[b][i], t.news[b][i])
  {
    NewTableIs(p, s, l, g, t);
    NewHolders(p, s, {}, 0);
  }

  lemma SizeOf(m: Infos)
    ensures |m| == |TriedIds(m)| + |NewIds(m)|
  {
    assert m.Keys == TriedIds(m) + NewIds(m);
    assert TriedIds(m) !! NewIds(m);
  }

  lemma RecoveredRenamed(p: ParamsOk, s: State, l: seq<int>, g: Table, t: State)
    requires Core(p, s, {}, 0) && g == Goals(p, s) && Goal(p, s, l, g) && Filling(p, s, l, g, t, p.newBuckets, 0)
    requires forall id :: id in s.infos ==> id >= 0 && 0 <= NewId(s, id) < |l| && l[NewId(s, id)] == id
    ensures Renamed(p, s, t)
  {
    UnfoldFilling(p, s, l, g, t, p.newBuckets, 0);
    NewTableIs(p, s, l, g, t);
    EntriesRecovered(p, s, l, t);
    CountsAre(s, l, t);
    CountsOf(p, s, {}, 0);
    SizeOf(s.infos);
    NewSlotsRecovered(p, s, l, g, t);
    forall b, i | 0 <= b < p.triedBuckets && 0 <= i < p.bucketSize ensures SameSlot(s, s.tried[b][i], t.tried[b][i]) {
      TriedSlotsSame(p, s, l, t, b, i);
    }
  }
}
