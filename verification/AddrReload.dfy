/** Reading back what was written: nothing is lost, and the result is the same manager up to
    renaming of ids. */
module AddrReload {
  import opened AddrTables
  import opened AddrState
  import opened AddrStore

  // ----- the new ids ---------------------------------------------------------------------------------------

  /** The new id of an entry: its place in the new list, or behind that list in the tried list. */
  ghost function NewId(s: State, id: int): int
    requires id in s.infos && id >= 0
  {
    if s.infos[id].inTried then s.nNew + Rank(s.infos, id, true) else Rank(s.infos, id, false)
  }

  /** l lists the old ids in the order of their new ids. */
  ghost predicate Ordered(s: State, l: seq<int>) {
    && s.nNew >= 0 && s.nTried >= 0 && |l| == s.nNew + s.nTried
    && (forall k :: 0 <= k < |l| ==> l[k] in s.infos && (s.infos[l[k]].inTried <==> k >= s.nNew))
    && (forall j, k :: 0 <= j < k < |l| ==> l[j] != l[k])
  }

  lemma OrderIs(p: ParamsOk, s: State) returns (l: seq<int>)
    requires Core(p, s, {}, 0)
    ensures l == Listed(s.infos, s.idCount, false) + Listed(s.infos, s.idCount, true) && Ordered(s, l)
    ensures forall id :: id in s.infos ==> id >= 0 && 0 <= NewId(s, id) < |l| && l[NewId(s, id)] == id
  {
    ListedCounts(p, s);
    var l1, l2 := Listed(s.infos, s.idCount, false), Listed(s.infos, s.idCount, true);
    l := l1 + l2;
    forall k | 0 <= k < |l| ensures l[k] in s.infos && l[k] >= 0 && NewId(s, l[k]) == k && (s.infos[l[k]].inTried <==> k >= s.nNew) {
      if k < |l1| {
        ListedElement(s.infos, s.idCount, false, k);
      } else {
        ListedElement(s.infos, s.idCount, true, k - |l1|);
      }
    }
    forall id | id in s.infos ensures id >= 0 && 0 <= NewId(s, id) < |l| && l[NewId(s, id)] == id {
      DatesOf(p, s, {}, 0, id);
      RankListed(s.infos, s.idCount, s.infos[id].inTried, id);
    }
  }

  // ----- reading the entries ---------------------------------------------------------------------------------

  ghost function Below(n: nat): (r: set<int>)
    ensures |r| == n && forall k :: k in r <==> 0 <= k < n
  {
    if n == 0 then {} else Below(n - 1) + {n - 1}
  }

  /** Entry k as it is read. */
  ghost function Read(s: State, l: seq<int>, k: nat): Info
    requires k < |l| && l[k] in s.infos
  {
    Restored(Stash(s.infos[l[k]]), s.infos[l[k]].inTried, k)
  }

  /** The entries below n are known; up to reference counts they are as they were read. */
  ghost predicate Entries(s: State, l: seq<int>, t: State, n: nat) {
    && n <= |l| && |t.random| == n
    && (forall k :: k in t.infos <==> 0 <= k < n)
    && (forall k :: 0 <= k < n ==> l[k] in s.infos && t.infos[k] == Read(s, l, k).(refCount := t.infos[k].refCount))
  }

  /** The tables agree, except that counters and dates are not looked at and entries below n may
      be without a slot. */
  ghost predicate Indexed(p: ParamsOk, t: State, n: nat) {
    && Shaped(t.tried, p.triedBuckets, p.bucketSize) && Shaped(t.news, p.newBuckets, p.bucketSize)
    && forall aspect: Aspect :: !aspect.Dated? && !aspect.Counted? ==> Agrees(p, t, Below(n), 0, aspect)
  }

  lemma UnfoldIndexed(p: ParamsOk, t: State, n: nat)
    requires Indexed(p, t, n)
    ensures RandomOk(t.infos, t.random) && AddrOk(t.infos, t.addrs) && TriedOk(p, t.infos, t.tried)
    ensures NewOk(p, t.infos, t.news, Below(n))
  {
    assert Agrees(p, t, Below(n), 0, InOrder) && Agrees(p, t, Below(n), 0, ByAddress);
    assert Agrees(p, t, Below(n), 0, InTried) && Agrees(p, t, Below(n), 0, InNew);
  }

  lemma FoldIndexed(p: ParamsOk, t: State, n: nat)
    requires RandomOk(t.infos, t.random) && AddrOk(t.infos, t.addrs) && TriedOk(p, t.infos, t.tried)
    requires NewOk(p, t.infos, t.news, Below(n))
    ensures Indexed(p, t, n)
  {
  }

  ghost predicate AllEmpty(p: ParamsOk, news: Table) {
    && Shaped(news, p.newBuckets, p.bucketSize)
    && forall b, i :: 0 <= b < p.newBuckets && 0 <= i < p.bucketSize ==> news[b][i] == -1
  }

  ghost predicate SameCounters(s: State, t: State) {
    t.nNew == s.nNew && t.nTried == s.nTried && t.lastGood == 1 && t.collisions == {}
  }

  /** The address of the next entry is not known yet. */
  lemma NextAddrIsNew(p: ParamsOk, s: State, l: seq<int>, t: State, n: nat)
    requires Core(p, s, {}, 0) && Ordered(s, l) && Entries(s, l, t, n) && n < |l| && AddrOk(t.infos, t.addrs)
    ensures s.infos[l[n]].addr.net !in t.addrs
  {
    Unfold(p, s, {}, 0);
    var a := s.infos[l[n]].addr.net;
    forall k | 0 <= k < n ensures t.infos[k].addr.net != a {
      assert s.addrs[s.infos[l[k]].addr.net] == l[k] && s.addrs[a] == l[n];
    }
  }

  lemma ListingKeeps(p: ParamsOk, s: State, l: seq<int>, t: State, n: nat, info: Info)
    requires Core(p, s, {}, 0) && Ordered(s, l) && Entries(s, l, t, n) && Indexed(p, t, n) && n < |l|
    requires info == Read(s, l, n).(inTried := false)
    ensures RandomOk(t.infos[n := info], t.random + [n])
    ensures AddrOk(t.infos[n := info], t.addrs[info.addr.net := n])
    ensures NewOk(p, t.infos[n := info], t.news, Below(n + 1)) && TriedOk(p, t.infos[n := info], t.tried)
  {
    UnfoldIndexed(p, t, n);
    NextAddrIsNew(p, s, l, t, n);
    PushKeepsRandom(t.infos, t.random, n, info);
    CreateKeepsAddr(t.infos, t.addrs, n, info);
    CreateKeepsTables(p, t.infos, t.news, t.tried, Below(n), n, info);
    assert Below(n) + {n} == Below(n + 1);
  }

  /** What holds while entries are read. */
  datatype Progress = Entered | Linked | NoSlots | Counters

  ghost predicate Made(p: ParamsOk, s: State, l: seq<int>, t: State, n: nat, progress: Progress) {
    match progress
    case Entered => Entries(s, l, t, n)
    case Linked => Indexed(p, t, n)
    case NoSlots => AllEmpty(p, t.news)
    case Counters => SameCounters(s, t)
  }

  ghost predicate Reading(p: ParamsOk, s: State, l: seq<int>, t: State, n: nat) {
    && Shaped(t.tried, p.triedBuckets, p.bucketSize) && Shaped(t.news, p.newBuckets, p.bucketSize)
    && forall progress :: Made(p, s, l, t, n, progress)
  }

  lemma UnfoldReading(p: ParamsOk, s: State, l: seq<int>, t: State, n: nat)
    requires Reading(p, s, l, t, n)
    ensures Entries(s, l, t, n) && Indexed(p, t, n) && AllEmpty(p, t.news) && SameCounters(s, t)
  {
    assert Made(p, s, l, t, n, Entered) && Made(p, s, l, t, n, Linked);
    assert Made(p, s, l, t, n, NoSlots) && Made(p, s, l, t, n, Counters);
  }

  lemma FoldReading(p: ParamsOk, s: State, l: seq<int>, t: State, n: nat)
    requires Entries(s, l, t, n) && Indexed(p, t, n) && AllEmpty(p, t.news) && SameCounters(s, t)
    ensures Reading(p, s, l, t, n)
  {
  }

  /** The two lists are written in order. */
  ghost predicate Written(p: ParamsOk, s: State, l: seq<int>, d: Disk) {
    && Usable(p, d) && Ordered(s, l) && |d.news| == s.nNew && |d.trieds| == s.nTried
    && (forall k :: 0 <= k < s.nNew ==> d.news[k] == Stash(s.infos[l[k]]))
    && (forall k :: 0 <= k < s.nTried ==> d.trieds[k] == Stash(s.infos[l[s.nNew + k]]))
  }

  lemma EntriesGrow(s: State, l: seq<int>, t: State, u: State, n: nat)
    requires Entries(s, l, t, n) && n < |l| && l[n] in s.infos
    requires u.infos == t.infos[n := Read(s, l, n)] && u.random == t.random + [n]
    ensures Entries(s, l, u, n + 1)
  {
  }

  lemma ReadNew(p: ParamsOk, s: State, l: seq<int>, d: Disk, t: State, n: nat) returns (u: State)
    requires Core(p, s, {}, 0) && Written(p, s, l, d) && Reading(p, s, l, t, n) && n < s.nNew
    ensures u == LoadNew(p, d, t, n) && Reading(p, s, l, u, n + 1)
  {
    UnfoldReading(p, s, l, t, n);
    var info := Read(s, l, n);
    assert Restored(d.news[n], false, |t.random|) == info;
    ListingKeeps(p, s, l, t, n, info);
    u := Listing(t, n, info);
    FoldIndexed(p, u, n + 1);
    EntriesGrow(s, l, t, u, n);
    FoldReading(p, s, l, u, n + 1);
  }

  lemma NothingRead(p: ParamsOk, s: State, l: seq<int>, d: Disk)
    requires Written(p, s, l, d)
    ensures Reading(p, s, l, News(p, d, 0), 0)
  {
    FoldIndexed(p, News(p, d, 0), 0);
    FoldReading(p, s, l, News(p, d, 0), 0);
  }

  lemma {:induction false} NewsRead(p: ParamsOk, s: State, l: seq<int>, d: Disk, n: nat) returns (t: State)
    requires Core(p, s, {}, 0) && Written(p, s, l, d) && n <= s.nNew
    ensures t == News(p, d, n) && Reading(p, s, l, t, n)
    decreases n
  {
    if n == 0 {
      NothingRead(p, s, l, d);
      t := News(p, d, 0);
    } else {
      var before := NewsRead(p, s, l, d, n - 1);
      t := ReadNew(p, s, l, d, before, n - 1);
    }
  }

  lemma SlotKnown(p: ParamsOk, t: State, n: nat, b: nat, i: nat)
    requires Indexed(p, t, n) && b < p.triedBuckets && i < p.bucketSize
    ensures t.tried[b][i] != -1 ==>
      && t.tried[b][i] in t.infos && t.infos[t.tried[b][i]].inTried
      && TriedBucket(p, t.infos[t.tried[b][i]].addr) == b && TriedPosition(p, t.infos[t.tried[b][i]].addr) == i
  {
    UnfoldIndexed(p, t, n);
  }

  /** The slot of the next tried entry is free. */
  lemma NextSlotIsFree(p: ParamsOk, s: State, l: seq<int>, t: State, n: nat)
    requires Core(p, s, {}, 0) && Indexed(p, t, n) && Ordered(s, l) && Entries(s, l, t, n) && s.nNew <= n < |l|
    ensures var a := s.infos[l[n]].addr; t.tried[TriedBucket(p, a)][TriedPosition(p, a)] == -1
  {
    var a := s.infos[l[n]].addr;
    var k := t.tried[TriedBucket(p, a)][TriedPosition(p, a)];
    TriedSlotOf(p, s, {}, 0, l[n]);
    SlotKnown(p, t, n, TriedBucket(p, a), TriedPosition(p, a));
    if k != -1 {
      TriedSlotOf(p, s, {}, 0, l[k]);
    }
  }

  /** The entry with new id n enters the tried table. */
  function Entering(p: ParamsOk, t: State, n: nat, info: Info): State
    requires Shaped(t.tried, p.triedBuckets, p.bucketSize)
  {
    Listing(t, n, info).(tried := SetSlot(t.tried, TriedBucket(p, info.addr), TriedPosition(p, info.addr), n), idCount := n + 1)
  }

  lemma TriedIndexed(p: ParamsOk, s: State, l: seq<int>, t: State, n: nat)
    requires Core(p, s, {}, 0)
    requires Ordered(s, l) && Entries(s, l, t, n) && Indexed(p, t, n) && s.nNew <= n < |l|
    ensures Indexed(p, Entering(p, t, n, Read(s, l, n)), n + 1)
  {
    NextSlotIsFree(p, s, l, t, n);
    var info := Read(s, l, n);
    var loose := info.(inTried := false);
    ListingKeeps(p, s, l, t, n, loose);
    EnteredTables(p, t, n, loose, info);
    EnteredOrder(p, t, n, loose, info);
    FoldIndexed(p, Entering(p, t, n, info), n + 1);
  }

  lemma EnteredOrder(p: ParamsOk, t: State, n: nat, loose: Info, info: Info)
    requires RandomOk(t.infos[n := loose], t.random + [n]) && AddrOk(t.infos[n := loose], t.addrs[info.addr.net := n])
    requires loose == info.(inTried := false) && info.inTried && Shaped(t.tried, p.triedBuckets, p.bucketSize)
    ensures var u := Entering(p, t, n, info); RandomOk(u.infos, u.random) && AddrOk(u.infos, u.addrs)
  {
    FlagKeeps(t.infos[n := loose], n, t.random + [n], t.addrs[info.addr.net := n]);
    assert t.infos[n := loose][n := info] == t.infos[n := info];
  }

  lemma EnteredTables(p: ParamsOk, t: State, n: nat, loose: Info, info: Info)
    requires NewOk(p, t.infos[n := loose], t.news, Below(n + 1)) && TriedOk(p, t.infos[n := loose], t.tried)
    requires -1 !in t.infos && loose == info.(inTried := false) && info.inTried && info.refCount == 0
    requires t.tried[TriedBucket(p, info.addr)][TriedPosition(p, info.addr)] == -1
    ensures var u := Entering(p, t, n, info);
      NewOk(p, u.infos, u.news, Below(n + 1)) && TriedOk(p, u.infos, u.tried)
  {
    EnterTried(p, t.infos[n := loose], t.news, t.tried, Below(n + 1), n);
    assert t.infos[n := loose][n := info] == t.infos[n := info];
    Loosen(p, t.infos[n := info], t.news, Below(n + 1) - {n}, Below(n + 1));
  }

  lemma FlagKeeps(m: Infos, id: int, v: seq<int>, a: map<NetAddr, int>)
    requires id in m && RandomOk(m, v) && AddrOk(m, a)
    ensures RandomOk(m[id := m[id].(inTried := true)], v) && AddrOk(m[id := m[id].(inTried := true)], a)
  {
  }

  ghost predicate ReadingTrieds(p: ParamsOk, s: State, l: seq<int>, t: State, n: nat) {
    s.nNew >= 0 && Reading(p, s, l, t, s.nNew + n) && t.idCount == s.nNew + n
  }

  lemma TriedEnters(p: ParamsOk, s: State, l: seq<int>, d: Disk, t: State, n: nat) returns (u: State)
    requires Core(p, s, {}, 0) && Written(p, s, l, d) && n < s.nTried && t.idCount == s.nNew + n
    requires Entries(s, l, t, s.nNew + n) && Indexed(p, t, s.nNew + n)
    ensures u == Entering(p, t, s.nNew + n, Read(s, l, s.nNew + n)) == LoadTried(p, t, d.trieds[n])
  {
    var k := s.nNew + n;
    NextSlotIsFree(p, s, l, t, k);
    u := Entering(p, t, k, Read(s, l, k));
    assert Restored(d.trieds[n], true, |t.random|) == Read(s, l, k);
  }

  lemma ReadTried(p: ParamsOk, s: State, l: seq<int>, d: Disk, t: State, n: nat) returns (u: State)
    requires Core(p, s, {}, 0) && Written(p, s, l, d)
    requires n < s.nTried && ReadingTrieds(p, s, l, t, n)
    ensures u == LoadTried(p, t, d.trieds[n]) && ReadingTrieds(p, s, l, u, n + 1)
  {
    var k := s.nNew + n;
    UnfoldReading(p, s, l, t, k);
    u := TriedEnters(p, s, l, d, t, n);
    EnteredReads(p, s, l, t, k, u);
  }

  lemma EnteredReads(p: ParamsOk, s: State, l: seq<int>, t: State, k: nat, u: State)
    requires Core(p, s, {}, 0) && Ordered(s, l) && s.nNew <= k < |l| && t.idCount == k
    requires Reading(p, s, l, t, k) && u == Entering(p, t, k, Read(s, l, k))
    ensures Reading(p, s, l, u, k + 1) && u.idCount == k + 1
  {
    UnfoldReading(p, s, l, t, k);
    TriedIndexed(p, s, l, t, k);
    EntriesGrow(s, l, t, u, k);
    FoldReading(p, s, l, u, k + 1);
  }

  lemma NewsDone(p: ParamsOk, s: State, l: seq<int>, d: Disk) returns (t: State)
    requires Core(p, s, {}, 0) && Written(p, s, l, d)
    ensures t == Trieds(p, d, 0) && ReadingTrieds(p, s, l, t, 0)
  {
    t := NewsRead(p, s, l, d, s.nNew);
    CountIsFree(p, s, l, t, s.nNew);
    t := t.(idCount := s.nNew);
  }

  lemma CountIsFree(p: ParamsOk, s: State, l: seq<int>, t: State, n: nat)
    requires Reading(p, s, l, t, n)
    ensures Reading(p, s, l, t.(idCount := n), n)
  {
    UnfoldReading(p, s, l, t, n);
    UnfoldIndexed(p, t, n);
    FoldIndexed(p, t.(idCount := n), n);
    FoldReading(p, s, l, t.(idCount := n), n);
  }

  lemma TriedsStep(p: ParamsOk, d: Disk, n: nat)
    requires n < |d.trieds|
    ensures Trieds(p, d, n + 1) == LoadTried(p, Trieds(p, d, n), d.trieds[n])
  {
  }

  lemma NextTried(p: ParamsOk, s: State, l: seq<int>, d: Disk, n: nat, before: State) returns (t: State)
    requires Core(p, s, {}, 0) && Written(p, s, l, d) && n < s.nTried <= |d.trieds|
    requires before == Trieds(p, d, n) && ReadingTrieds(p, s, l, before, n)
    ensures t == Trieds(p, d, n + 1) && ReadingTrieds(p, s, l, t, n + 1)
  {
    t := ReadTried(p, s, l, d, before, n);
    TriedsStep(p, d, n);
  }

  /** No tried entry finds its slot taken. */
  lemma {:induction false} TriedsFollow(p: ParamsOk, s: State, l: seq<int>, d: Disk, n: nat, start: State) returns (t: State)
    requires Core(p, s, {}, 0) && Written(p, s, l, d) && n <= s.nTried
    requires start == Trieds(p, d, 0) && ReadingTrieds(p, s, l, start, 0)
    ensures t == Trieds(p, d, n) && ReadingTrieds(p, s, l, t, n)
    decreases n
  {
    t := start;
    if n > 0 {
      var before := TriedsFollow(p, s, l, d, n - 1, start);
      t := NextTried(p, s, l, d, n - 1, before);
    }
  }

  lemma TriedsRead(p: ParamsOk, s: State, l: seq<int>, d: Disk) returns (t: State)
    requires Core(p, s, {}, 0) && Written(p, s, l, d)
    ensures t == Trieds(p, d, s.nTried) && ReadingTrieds(p, s, l, t, s.nTried)
  {
    var start := NewsDone(p, s, l, d);
    t := TriedsFollow(p, s, l, d, s.nTried, start);
  }
}
