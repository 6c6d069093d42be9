/** Reading any stream into an address manager of any parameters: which entries stay, and exactly
    when the result is well-formed. */
module AddrStreams {
  import opened AddrTables
  import opened AddrState
  import opened AddrStore
  import opened AddrReload

  // ----- the entries of a stream ---------------------------------------------------------------------------

  function Total(d: Disk): nat { |d.news| + |d.trieds| }

  /** The entries of both lists, one after the other. */
  function At(d: Disk, e: nat): Stored
    requires e < Total(d)
  {
    if e < |d.news| then d.news[e] else d.trieds[e - |d.news|]
  }

  predicate InTriedSlot(p: ParamsOk, r: Stored, b: nat, i: nat) {
    TriedBucket(p, r.addr) == b && TriedPosition(p, r.addr) == i
  }

  /** One of the first n tried entries belongs into this slot. */
  predicate Taken(p: ParamsOk, d: Disk, n: nat, b: nat, i: nat)
    requires n <= |d.trieds|
  {
    exists j :: 0 <= j < n && InTriedSlot(p, d.trieds[j], b, i)
  }

  /** A tried entry stays exactly if it is the first one of its slot. */
  predicate TriedStays(p: ParamsOk, d: Disk, j: nat)
    requires j < |d.trieds|
  {
    !Taken(p, d, j, TriedBucket(p, d.trieds[j].addr), TriedPosition(p, d.trieds[j].addr))
  }

  /** The entries that get an id: all new ones, and the tried ones that stay. */
  predicate GetsId(p: ParamsOk, d: Disk, e: nat)
    requires e < Total(d)
  {
    e < |d.news| || TriedStays(p, d, e - |d.news|)
  }

  /** The entries that have got an id after n tried ones, in the order of their ids. */
  function Ids(p: ParamsOk, d: Disk, n: nat): (l: seq<nat>)
    requires n <= |d.trieds|
    ensures |l| >= |d.news| && forall k :: 0 <= k < |l| ==> l[k] < |d.news| + n && (l[k] >= |d.news| <==> k >= |d.news|)
    ensures forall k :: 0 <= k < |d.news| ==> l[k] == k
  {
    if n == 0 then seq(|d.news|, i => i)
    else if TriedStays(p, d, n - 1) then Ids(p, d, n - 1) + [|d.news| + n - 1]
    else Ids(p, d, n - 1)
  }

  lemma {:induction false} IdsAre(p: ParamsOk, d: Disk, n: nat)
    requires n <= |d.trieds|
    ensures forall j, k :: 0 <= j < k < |Ids(p, d, n)| ==> Ids(p, d, n)[j] < Ids(p, d, n)[k]
    ensures forall e: nat :: e < |d.news| + n ==> (e in Ids(p, d, n) <==> GetsId(p, d, e))
  {
    if n == 0 {
      forall e: nat | e < |d.news| ensures e in Ids(p, d, 0) {
        assert Ids(p, d, 0)[e] == e;
      }
    } else {
      IdsAre(p, d, n - 1);
      var before, l := Ids(p, d, n - 1), Ids(p, d, n);
      assert l == before || l == before + [|d.news| + n - 1];
    }
  }

  /** An entry as it was read, apart from its place and its references. */
  predicate From(r: Stored, tried: bool, info: Info) {
    info == Restored(r, tried, info.randomPos).(refCount := info.refCount)
  }

  /** The known entries are those of the stream that l lists. */
  ghost predicate KnownAs(d: Disk, l: seq<nat>, m: Infos) {
    && (forall k :: k in m <==> 0 <= k < |l|)
    && (forall k :: 0 <= k < |l| ==> l[k] < Total(d) && From(At(d, l[k]), l[k] >= |d.news|, m[k]))
  }

  lemma KnownGrows(d: Disk, l: seq<nat>, m: Infos, e: nat, info: Info)
    requires KnownAs(d, l, m) && e < Total(d) && From(At(d, e), e >= |d.news|, info)
    ensures KnownAs(d, l + [e], m[|l| := info])
  {
  }

  /** Every address index leads to an entry with that address, and every address is indexed. */
  ghost predicate Addressed(m: Infos, a: map<NetAddr, int>) {
    && (forall id :: id in m ==> m[id].addr.net in a)
    && (forall n :: n in a ==> a[n] in m && m[a[n]].addr.net == n)
  }

  lemma AddressedGrows(m: Infos, a: map<NetAddr, int>, id: int, info: Info)
    requires Addressed(m, a) && id !in m
    ensures Addressed(m[id := info], a[info.addr.net := id])
  {
  }

  // ----- what holds while a stream is read ----------------------------------------------------------------------

  datatype Facet = AsListed | ByName | ByNewSlot | ByTriedSlot | ByPlace

  ghost predicate FacetOk(p: ParamsOk, d: Disk, l: seq<nat>, t: State, facet: Facet) {
    match facet
    case AsListed => KnownAs(d, l, t.infos)
    case ByName => Addressed(t.infos, t.addrs)
    case ByNewSlot => NewOk(p, t.infos, t.news, Below(|l|))
    case ByTriedSlot => TriedOk(p, t.infos, t.tried)
    case ByPlace => RandomOk(t.infos, t.random)
  }

  /** The entries that l lists were read, and all indexes are in order, except that entries may be without
      a slot and share their addresses.  Closed to the solver: OpenRead and CloseRead open and close it. */
  ghost predicate HasRead(p: ParamsOk, d: Disk, l: seq<nat>, t: State) {
    && Shaped(t.tried, p.triedBuckets, p.bucketSize) && Shaped(t.news, p.newBuckets, p.bucketSize)
    && forall facet :: FacetOk(p, d, l, t, facet)
  }

  lemma OpenRead(p: ParamsOk, d: Disk, l: seq<nat>, t: State)
    requires HasRead(p, d, l, t)
    ensures KnownAs(d, l, t.infos) && Addressed(t.infos, t.addrs) && RandomOk(t.infos, t.random)
    ensures NewOk(p, t.infos, t.news, Below(|l|)) && TriedOk(p, t.infos, t.tried)
  {
    assert FacetOk(p, d, l, t, AsListed) && FacetOk(p, d, l, t, ByName) && FacetOk(p, d, l, t, ByPlace);
    assert FacetOk(p, d, l, t, ByNewSlot) && FacetOk(p, d, l, t, ByTriedSlot);
  }

  lemma CloseRead(p: ParamsOk, d: Disk, l: seq<nat>, t: State)
    requires KnownAs(d, l, t.infos) && Addressed(t.infos, t.addrs) && RandomOk(t.infos, t.random)
    requires NewOk(p, t.infos, t.news, Below(|l|)) && TriedOk(p, t.infos, t.tried)
    ensures HasRead(p, d, l, t)
  {
  }

  // ----- one entry more ------------------------------------------------------------------------------------------

  /** An entry is listed without a slot. */
  lemma ListedTables(p: ParamsOk, m: Infos, news: Table, tried: Table, n: nat, info: Info)
    requires NewOk(p, m, news, Below(n)) && TriedOk(p, m, tried) && (forall k :: k in m <==> 0 <= k < n)
    requires !info.inTried && info.refCount == 0
    ensures NewOk(p, m[n := info], news, Below(n + 1)) && TriedOk(p, m[n := info], tried)
  {
    CreateKeepsTables(p, m, news, tried, Below(n), n, info);
    assert Below(n) + {n} == Below(n + 1);
  }

  /** Everything but the tables, when one more entry is listed. */
  lemma ListedIndexes(p: ParamsOk, d: Disk, l: seq<nat>, s: State, e: nat, info: Info, t: State)
    requires HasRead(p, d, l, s) && e < Total(d) && info == Restored(At(d, e), e >= |d.news|, |s.random|)
    requires t.infos == s.infos[|l| := info] && t.addrs == s.addrs[info.addr.net := |l|] && t.random == s.random + [|l|]
    ensures KnownAs(d, l + [e], t.infos) && Addressed(t.infos, t.addrs) && RandomOk(t.infos, t.random)
  {
    OpenRead(p, d, l, s);
    KnownGrows(d, l, s.infos, e, info);
    AddressedGrows(s.infos, s.addrs, |l|, info);
    PushKeepsRandom(s.infos, s.random, |l|, info);
  }

  lemma EntryTables(p: ParamsOk, d: Disk, l: seq<nat>, s: State, info: Info)
    requires HasRead(p, d, l, s) && !info.inTried && info.refCount == 0
    ensures -1 !in s.infos && |l| !in s.infos
    ensures var m := s.infos[|l| := info]; NewOk(p, m, s.news, Below(|l| + 1)) && TriedOk(p, m, s.tried)
  {
    OpenRead(p, d, l, s);
    ListedTables(p, s.infos, s.news, s.tried, |l|, info);
  }

  lemma EntryListed(p: ParamsOk, d: Disk, l: seq<nat>, s: State, e: nat, info: Info) returns (t: State)
    requires HasRead(p, d, l, s) && e < |d.news| && info == Restored(d.news[e], false, |s.random|)
    ensures t == Listing(s, |l|, info) && HasRead(p, d, l + [e], t)
  {
    t := Listing(s, |l|, info);
    ListedIndexes(p, d, l, s, e, info, t);
    EntryTables(p, d, l, s, info);
    CloseRead(p, d, l + [e], t);
  }

  /** The new table when an untried entry takes a free slot. */
  lemma FilledTable(p: ParamsOk, m: Infos, news: Table, n: nat, id: int, b: nat, info: Info, filled: Table)
    requires NewOk(p, m, news, Below(n)) && -1 !in m && b < p.newBuckets && id in m
    requires !m[id].inTried && m[id].refCount < NEW_BUCKETS_PER_ADDRESS && info == m[id].(refCount := m[id].refCount + 1)
    requires news[b][Position(p, m[id].addr, true, b)] == -1 && filled == SetSlot(news, b, Position(p, m[id].addr, true, b), id)
    ensures NewOk(p, m[id := info], filled, Below(n))
  {
    FillSlotKeepsNew(p, m, news, Below(n), id, b);
    Loosen(p, m[id := info], filled, Below(n) - {id}, Below(n));
  }

  /** One more reference for an entry of the new list. */
  function Refer(p: ParamsOk, s: State, id: int, b: nat): State
    requires id in s.infos && b < p.newBuckets && Shaped(s.news, p.newBuckets, p.bucketSize)
  {
    s.(infos := s.infos[id := s.infos[id].(refCount := s.infos[id].refCount + 1)],
       news := SetSlot(s.news, b, Position(p, s.infos[id].addr, true, b), id))
  }

  lemma ReferredTables(p: ParamsOk, d: Disk, l: seq<nat>, s: State, id: int, b: nat, t: State)
    requires HasRead(p, d, l, s) && b < p.newBuckets && 0 <= id < |l| && l[id] < |d.news| && id in s.infos
    requires s.infos[id].refCount < NEW_BUCKETS_PER_ADDRESS && s.news[b][Position(p, s.infos[id].addr, true, b)] == -1
    requires t == Refer(p, s, id, b)
    ensures NewOk(p, t.infos, t.news, Below(|l|))
  {
    OpenRead(p, d, l, s);
    FilledTable(p, s.infos, s.news, |l|, id, b, t.infos[id], t.news);
  }

  lemma ReferredIndexes(p: ParamsOk, d: Disk, l: seq<nat>, s: State, id: int, m: Infos)
    requires HasRead(p, d, l, s) && 0 <= id < |l| && l[id] < |d.news| && id in s.infos
    requires m == s.infos[id := s.infos[id].(refCount := s.infos[id].refCount + 1)]
    ensures KnownAs(d, l, m) && Addressed(m, s.addrs) && RandomOk(m, s.random) && TriedOk(p, m, s.tried)
  {
    OpenRead(p, d, l, s);
    RefCountIsPrivate(p, s.infos, id, s.infos[id].refCount + 1, s.random, s.addrs, 0, s.tried);
    ReferenceOnly(d, l, s.infos, s.addrs, id, s.infos[id].refCount + 1);
  }

  lemma Referred(p: ParamsOk, d: Disk, l: seq<nat>, s: State, id: int, b: nat) returns (t: State)
    requires HasRead(p, d, l, s) && b < p.newBuckets && 0 <= id < |l| && l[id] < |d.news| && id in s.infos
    requires s.infos[id].refCount < NEW_BUCKETS_PER_ADDRESS && s.news[b][Position(p, s.infos[id].addr, true, b)] == -1
    ensures t == Refer(p, s, id, b) && HasRead(p, d, l, t)
  {
    t := Refer(p, s, id, b);
    ReferredTables(p, d, l, s, id, b, t);
    ReferredIndexes(p, d, l, s, id, t.infos);
    CloseRead(p, d, l, t);
  }

  lemma ReferenceOnly(d: Disk, l: seq<nat>, m: Infos, a: map<NetAddr, int>, id: int, n: int)
    requires KnownAs(d, l, m) && Addressed(m, a) && id in m
    ensures var m' := m[id := m[id].(refCount := n)]; KnownAs(d, l, m') && Addressed(m', a)
  {
  }

  lemma EnteringTables(p: ParamsOk, d: Disk, l: seq<nat>, s: State, info: Info, t: State)
    requires HasRead(p, d, l, s) && info.inTried && info.refCount == 0 && t == Entering(p, s, |l|, info)
    requires s.tried[TriedBucket(p, info.addr)][TriedPosition(p, info.addr)] == -1
    ensures NewOk(p, t.infos, t.news, Below(|l| + 1)) && TriedOk(p, t.infos, t.tried)
  {
    var loose := info.(inTried := false);
    EntryTables(p, d, l, s, loose);
    EnteredTables(p, s, |l|, loose, info);
  }

  /** A tried entry takes its free slot. */
  lemma EntryEnters(p: ParamsOk, d: Disk, l: seq<nat>, s: State, j: nat) returns (t: State)
    requires HasRead(p, d, l, s) && j < |d.trieds| && s.idCount == |l|
    requires s.tried[TriedBucket(p, d.trieds[j].addr)][TriedPosition(p, d.trieds[j].addr)] == -1
    ensures t == LoadTried(p, s, d.trieds[j]) && HasRead(p, d, l + [|d.news| + j], t) && t.idCount == |l| + 1
  {
    var info := Restored(d.trieds[j], true, |s.random|);
    t := Entering(p, s, |l|, info);
    EnteredCloses(p, d, l, s, |d.news| + j, info, t);
  }

  lemma EnteredCloses(p: ParamsOk, d: Disk, l: seq<nat>, s: State, e: nat, info: Info, t: State)
    requires HasRead(p, d, l, s) && |d.news| <= e < Total(d) && info == Restored(At(d, e), true, |s.random|)
    requires s.tried[TriedBucket(p, info.addr)][TriedPosition(p, info.addr)] == -1 && t == Entering(p, s, |l|, info)
    ensures HasRead(p, d, l + [e], t)
  {
    EnteringTables(p, d, l, s, info, t);
    ListedIndexes(p, d, l, s, e, info, t);
    assert |l + [e]| == |l| + 1;
    CloseRead(p, d, l + [e], t);
  }

  // ----- reading the new list -------------------------------------------------------------------------------

  function UpTo(n: nat): (l: seq<nat>)
    ensures |l| == n && forall k :: 0 <= k < n ==> l[k] == k
  {
    seq(n, i => i)
  }

  /** An entry of the new list gets no slot when it is read. */
  predicate Homeless(p: ParamsOk, d: Disk, s: State, n: nat)
    requires n < |d.news| && Shaped(s.news, p.newBuckets, p.bucketSize)
  {
    var r := d.news[n];
    var b := NewBucket(p, r.addr, r.source);
    Usable(p, d) || s.news[b][Position(p, r.addr, true, b)] != -1
  }

  lemma NewRead(p: ParamsOk, d: Disk, s: State, n: nat) returns (t: State)
    requires n < |d.news| && HasRead(p, d, UpTo(n), s)
    ensures t == LoadNew(p, d, s, n) && HasRead(p, d, UpTo(n + 1), t)
  {
    var info := Restored(d.news[n], false, |s.random|);
    t := EntryListed(p, d, UpTo(n), s, n, info);
    assert UpTo(n) + [n] == UpTo(n + 1);
    if !Homeless(p, d, s, n) {
      t := Referred(p, d, UpTo(n + 1), t, n, NewBucket(p, info.addr, info.source));
      assert s.infos[n := info][n := info.(refCount := 1)] == s.infos[n := info.(refCount := 1)];
    }
  }

  lemma NoneRead(p: ParamsOk, d: Disk) returns (t: State)
    ensures t == News(p, d, 0) && HasRead(p, d, UpTo(0), t)
  {
    FreshValid(p);
    Unfold(p, Fresh(p), {}, 0);
    t := News(p, d, 0);
    CloseRead(p, d, UpTo(0), t);
  }

  lemma {:induction false} NewsHaveRead(p: ParamsOk, d: Disk, n: nat) returns (t: State)
    requires n <= |d.news|
    ensures t == News(p, d, n) && HasRead(p, d, UpTo(n), t)
    decreases n
  {
    if n == 0 {
      t := NoneRead(p, d);
    } else {
      t := NewsHaveRead(p, d, n - 1);
      t := NewRead(p, d, t, n - 1);
      NewsStep(p, d, n - 1);
    }
  }

  lemma {:induction false} NewsRest(p: ParamsOk, d: Disk, n: nat)
    requires n <= |d.news|
    ensures var t := News(p, d, n);
      t.tried == EmptyTable(p.triedBuckets, p.bucketSize) && t.nTried == |d.trieds| && t.collisions == {}
  {
    if n > 0 {
      NewsRest(p, d, n - 1);
    }
  }

  // ----- reading the tried list ---------------------------------------------------------------------------------

  /** The occupied tried slots are those that one of the first n tried entries belongs into. */
  ghost predicate TakenIs(p: ParamsOk, d: Disk, n: nat, tried: Table)
    requires n <= |d.trieds|
  {
    && Shaped(tried, p.triedBuckets, p.bucketSize)
    && forall b, i :: 0 <= b < p.triedBuckets && 0 <= i < p.bucketSize ==> (tried[b][i] != -1 <==> Taken(p, d, n, b, i))
  }

  lemma TakenStep(p: ParamsOk, d: Disk, n: nat, b: nat, i: nat)
    requires n < |d.trieds|
    ensures Taken(p, d, n + 1, b, i) <==> Taken(p, d, n, b, i) || InTriedSlot(p, d.trieds[n], b, i)
  {
  }

  lemma TriedTaken(p: ParamsOk, d: Disk, s: State, n: nat, t: State)
    requires n < |d.trieds| && TakenIs(p, d, n, s.tried) && s.idCount >= 0 && t == LoadTried(p, s, d.trieds[n])
    ensures TakenIs(p, d, n + 1, t.tried)
  {
    forall b, i | 0 <= b < p.triedBuckets && 0 <= i < p.bucketSize
      ensures t.tried[b][i] != -1 <==> Taken(p, d, n + 1, b, i)
    {
      TakenStep(p, d, n, b, i);
    }
  }

  /** Ids and counters after n tried entries: those that were lost are taken off. */
  ghost predicate Counting(p: ParamsOk, d: Disk, n: nat, t: State)
    requires n <= |d.trieds|
  {
    && t.idCount == |Ids(p, d, n)| && t.nNew == |d.news| && t.collisions == {}
    && t.nTried == |d.trieds| - n + |Ids(p, d, n)| - |d.news|
  }

  lemma IdsStep(p: ParamsOk, d: Disk, n: nat)
    requires n < |d.trieds|
    ensures Ids(p, d, n + 1) == if TriedStays(p, d, n) then Ids(p, d, n) + [|d.news| + n] else Ids(p, d, n)
  {
  }

  lemma TriedStaysIff(p: ParamsOk, d: Disk, n: nat, tried: Table)
    requires n < |d.trieds| && TakenIs(p, d, n, tried)
    ensures TriedStays(p, d, n) <==> tried[TriedBucket(p, d.trieds[n].addr)][TriedPosition(p, d.trieds[n].addr)] == -1
  {
  }

  lemma TriedLost(p: ParamsOk, d: Disk, l: seq<nat>, s: State, t: State)
    requires HasRead(p, d, l, s) && t == s.(nTried := s.nTried - 1)
    ensures HasRead(p, d, l, t)
  {
    OpenRead(p, d, l, s);
    CloseRead(p, d, l, t);
  }

  lemma TriedRead(p: ParamsOk, d: Disk, s: State, n: nat) returns (t: State)
    requires n < |d.trieds| && HasRead(p, d, Ids(p, d, n), s) && TakenIs(p, d, n, s.tried) && Counting(p, d, n, s)
    ensures t == LoadTried(p, s, d.trieds[n])
    ensures HasRead(p, d, Ids(p, d, n + 1), t) && TakenIs(p, d, n + 1, t.tried) && Counting(p, d, n + 1, t)
  {
    TriedStaysIff(p, d, n, s.tried);
    IdsStep(p, d, n);
    if TriedStays(p, d, n) {
      t := EntryEnters(p, d, Ids(p, d, n), s, n);
    } else {
      t := s.(nTried := s.nTried - 1);
      TriedLost(p, d, Ids(p, d, n), s, t);
    }
    TriedTaken(p, d, s, n, t);
  }

  lemma NewsDone(p: ParamsOk, d: Disk) returns (t: State)
    ensures t == Trieds(p, d, 0) && HasRead(p, d, Ids(p, d, 0), t) && TakenIs(p, d, 0, t.tried) && Counting(p, d, 0, t)
  {
    var s := NewsHaveRead(p, d, |d.news|);
    NewsRest(p, d, |d.news|);
    OpenRead(p, d, UpTo(|d.news|), s);
    assert UpTo(|d.news|) == Ids(p, d, 0);
    t := s.(idCount := |d.news|);
    CloseRead(p, d, Ids(p, d, 0), t);
  }

  lemma {:induction false} TriedsHaveRead(p: ParamsOk, d: Disk, n: nat) returns (t: State)
    requires n <= |d.trieds|
    ensures t == Trieds(p, d, n) && HasRead(p, d, Ids(p, d, n), t) && TakenIs(p, d, n, t.tried) && Counting(p, d, n, t)
    decreases n
  {
    if n == 0 {
      t := NewsDone(p, d);
    } else {
      var s := TriedsHaveRead(p, d, n - 1);
      t := TriedRead(p, d, s, n - 1);
      TriedsStep(p, d, n - 1);
    }
  }

  // ----- reading the buckets ----------------------------------------------------------------------------------

  /** Only entries and new slots may have changed. */
  predicate SameElse(s: State, t: State) { t == s.(infos := t.infos, news := t.news) }

  lemma SlotRead(p: ParamsOk, d: Disk, l: seq<nat>, s: State, b: nat, index: int) returns (t: State)
    requires HasRead(p, d, l, s) && b < |d.slots| && |l| >= |d.news| && forall k :: 0 <= k < |d.news| ==> l[k] == k
    ensures t == LoadSlot(p, d, s, b, index) && HasRead(p, d, l, t) && SameElse(s, t)
  {
    t := LoadSlot(p, d, s, b, index);
    if t != s {
      t := Referred(p, d, l, s, index, b);
    }
  }

  lemma {:induction false} RowHasRead(p: ParamsOk, d: Disk, l: seq<nat>, s: State, b: nat, n: nat) returns (t: State)
    requires HasRead(p, d, l, s) && b < |d.slots| && n <= |d.slots[b]|
    requires |l| >= |d.news| && forall k :: 0 <= k < |d.news| ==> l[k] == k
    ensures t == LoadRow(p, d, s, b, n) && HasRead(p, d, l, t) && SameElse(s, t)
    decreases n
  {
    if n == 0 {
      t := s;
    } else {
      var u := RowHasRead(p, d, l, s, b, n - 1);
      t := SlotRead(p, d, l, u, b, d.slots[b][n - 1]);
    }
  }

  lemma {:induction false} RowsHaveRead(p: ParamsOk, d: Disk, b: nat) returns (t: State)
    requires b <= |d.slots|
    ensures t == LoadRows(p, d, b) && HasRead(p, d, Ids(p, d, |d.trieds|), t)
    ensures SameElse(Trieds(p, d, |d.trieds|), t)
    decreases b
  {
    if b == 0 {
      t := TriedsHaveRead(p, d, |d.trieds|);
    } else {
      var s := RowsHaveRead(p, d, b - 1);
      t := RowHasRead(p, d, Ids(p, d, |d.trieds|), s, b - 1, |d.slots[b - 1]|);
    }
  }

  // ----- which new entries get a slot: without usable buckets ------------------------------------------------------

  predicate InHomeSlot(p: ParamsOk, r: Stored, b: nat, i: nat) {
    NewBucket(p, r.addr, r.source) == b && Position(p, r.addr, true, b) == i
  }

  predicate HomeTaken(p: ParamsOk, d: Disk, n: nat, b: nat, i: nat)
    requires n <= |d.news|
  {
    exists j :: 0 <= j < n && InHomeSlot(p, d.news[j], b, i)
  }

  /** Without usable buckets an entry of the new list stays exactly if it is the first one of its home slot. */
  predicate HomeStays(p: ParamsOk, d: Disk, k: nat)
    requires k < |d.news|
  {
    var b := NewBucket(p, d.news[k].addr, d.news[k].source);
    !HomeTaken(p, d, k, b, Position(p, d.news[k].addr, true, b))
  }

  ghost predicate HomesAre(p: ParamsOk, d: Disk, n: nat, s: State)
    requires n <= |d.news|
  {
    && Shaped(s.news, p.newBuckets, p.bucketSize)
    && (forall b, i :: 0 <= b < p.newBuckets && 0 <= i < p.bucketSize ==> (s.news[b][i] != -1 <==> HomeTaken(p, d, n, b, i)))
    && (forall k :: 0 <= k < n ==> k in s.infos && s.infos[k].refCount == if HomeStays(p, d, k) then 1 else 0)
  }

  lemma HomeStep(p: ParamsOk, d: Disk, n: nat, b: nat, i: nat)
    requires n < |d.news|
    ensures HomeTaken(p, d, n + 1, b, i) <==> HomeTaken(p, d, n, b, i) || InHomeSlot(p, d.news[n], b, i)
  {
  }

  lemma HomesNext(p: ParamsOk, d: Disk, n: nat, s: State, t: State)
    requires n < |d.news| && !Usable(p, d) && HomesAre(p, d, n, s) && t == LoadNew(p, d, s, n)
    ensures HomesAre(p, d, n + 1, t)
  {
    forall b, i | 0 <= b < p.newBuckets && 0 <= i < p.bucketSize
      ensures t.news[b][i] != -1 <==> HomeTaken(p, d, n + 1, b, i)
    {
      HomeStep(p, d, n, b, i);
    }
  }

  lemma {:induction false} NewsHomes(p: ParamsOk, d: Disk, n: nat) returns (t: State)
    requires n <= |d.news| && !Usable(p, d)
    ensures t == News(p, d, n) && HomesAre(p, d, n, t)
    decreases n
  {
    if n == 0 {
      t := News(p, d, 0);
    } else {
      var s := NewsHomes(p, d, n - 1);
      t := LoadNew(p, d, s, n - 1);
      HomesNext(p, d, n - 1, s, t);
      NewsStep(p, d, n - 1);
    }
  }

  // ----- which new entries get a slot: from usable buckets ----------------------------------------------------------

  /** How many of the first b buckets an entry has got a slot in. */
  ghost function Count(p: ParamsOk, d: Disk, b: nat, k: nat): nat
    requires b <= |d.slots| && k < |d.news|
    decreases b, 0
  {
    if b == 0 then 0
    else Count(p, d, b - 1, k) + Won(Winner(p, d, b - 1, |d.slots[b - 1]|, Position(p, d.news[k].addr, true, b - 1)), k)
  }

  /** Who gets slot i of bucket b: the first of its n first indexes that belongs there and has references
      left, or -1. */
  ghost function Winner(p: ParamsOk, d: Disk, b: nat, n: nat, i: nat): int
    requires b < |d.slots| && n <= |d.slots[b]|
    decreases b, n
  {
    if n == 0 then -1
    else
      var w, k := Winner(p, d, b, n - 1, i), d.slots[b][n - 1];
      if w == -1 && Claims(p, d, b, k, i) && Count(p, d, b, k) < NEW_BUCKETS_PER_ADDRESS then k else w
  }

  /** An index of an entry of the new list whose slot in bucket b is i. */
  predicate Claims(p: ParamsOk, d: Disk, b: nat, k: int, i: nat) {
    0 <= k < |d.news| && Position(p, d.news[k].addr, true, b) == i
  }

  ghost predicate EmptyFrom(p: ParamsOk, news: Table, b: nat) {
    && Shaped(news, p.newBuckets, p.bucketSize)
    && forall c, i :: b <= c < p.newBuckets && 0 <= i < p.bucketSize ==> news[c][i] == -1
  }

  /** Bucket b after its first n indexes, and the references of all entries. */
  ghost predicate RowIs(p: ParamsOk, d: Disk, b: nat, n: nat, t: State)
    requires b < |d.slots| && n <= |d.slots[b]| && Usable(p, d)
  {
    && EmptyFrom(p, t.news, b + 1)
    && (forall i :: 0 <= i < p.bucketSize ==> t.news[b][i] == Winner(p, d, b, n, i))
    && (forall k :: 0 <= k < |d.news| ==>
          && k in t.infos && t.infos[k].addr == d.news[k].addr
          && t.infos[k].refCount == Count(p, d, b, k) + Won(Winner(p, d, b, n, Position(p, d.news[k].addr, true, b)), k))
  }

  function Won(winner: int, k: int): nat { if winner == k then 1 else 0 }

  lemma RowNext(p: ParamsOk, d: Disk, b: nat, n: nat, s: State, t: State)
    requires b < |d.slots| && n < |d.slots[b]| && Usable(p, d) && RowIs(p, d, b, n, s)
    requires t == LoadSlot(p, d, s, b, d.slots[b][n])
    ensures RowIs(p, d, b, n + 1, t)
  {
  }

  /** Before bucket b: it and the later ones are empty, and references are those counted so far. */
  ghost predicate RowsAre(p: ParamsOk, d: Disk, b: nat, t: State)
    requires b <= |d.slots| && Usable(p, d)
  {
    && EmptyFrom(p, t.news, b)
    && forall k :: 0 <= k < |d.news| ==>
         k in t.infos && t.infos[k].addr == d.news[k].addr && t.infos[k].refCount == Count(p, d, b, k)
  }

  lemma RowStarts(p: ParamsOk, d: Disk, b: nat, t: State)
    requires b < |d.slots| && Usable(p, d) && RowsAre(p, d, b, t)
    ensures RowIs(p, d, b, 0, t)
  {
  }

  lemma RowEnds(p: ParamsOk, d: Disk, b: nat, t: State)
    requires b < |d.slots| && Usable(p, d) && RowIs(p, d, b, |d.slots[b]|, t)
    ensures RowsAre(p, d, b + 1, t)
  {
  }

  lemma {:induction false} RowCounts(p: ParamsOk, d: Disk, b: nat, n: nat, s: State) returns (t: State)
    requires b < |d.slots| && n <= |d.slots[b]| && Usable(p, d) && RowIs(p, d, b, 0, s)
    ensures t == LoadRow(p, d, s, b, n) && RowIs(p, d, b, n, t)
    decreases n
  {
    if n == 0 {
      t := s;
    } else {
      var u := RowCounts(p, d, b, n - 1, s);
      t := LoadSlot(p, d, u, b, d.slots[b][n - 1]);
      RowNext(p, d, b, n - 1, u, t);
    }
  }

  lemma RowsCountNext(p: ParamsOk, d: Disk, b: nat, s: State) returns (t: State)
    requires b < |d.slots| && Usable(p, d) && RowsAre(p, d, b, s)
    ensures t == LoadRow(p, d, s, b, |d.slots[b]|) && RowsAre(p, d, b + 1, t)
  {
    RowStarts(p, d, b, s);
    t := RowCounts(p, d, b, |d.slots[b]|, s);
    RowEnds(p, d, b, t);
  }

  lemma RowsUnfold(p: ParamsOk, d: Disk, b: nat)
    requires b < |d.slots|
    ensures LoadRows(p, d, b + 1) == LoadRow(p, d, LoadRows(p, d, b), b, |d.slots[b]|)
  {
  }

  lemma {:induction false} RowsCount(p: ParamsOk, d: Disk, b: nat) returns (t: State)
    requires b <= |d.slots| && Usable(p, d)
    ensures t == LoadRows(p, d, b) && RowsAre(p, d, b, t)
    decreases b
  {
    if b == 0 {
      NoSlotYet(p, d);
      t := LoadRows(p, d, 0);
    } else {
      var s := RowsCount(p, d, b - 1);
      t := RowsCountNext(p, d, b - 1, s);
      RowsUnfold(p, d, b - 1);
    }
  }

  lemma {:induction false} NewsUnslotted(p: ParamsOk, d: Disk, n: nat)
    requires n <= |d.news| && Usable(p, d)
    ensures EmptyFrom(p, News(p, d, n).news, 0)
    ensures forall k :: 0 <= k < n ==>
      k in News(p, d, n).infos && News(p, d, n).infos[k].refCount == 0 && News(p, d, n).infos[k].addr == d.news[k].addr
  {
    if n > 0 {
      NewsUnslotted(p, d, n - 1);
      NewsStep(p, d, n - 1);
    }
  }

  /** New slots and the entries below n are the same. */
  predicate SameNews(s: State, t: State, n: nat) {
    t.news == s.news && forall k :: 0 <= k < n ==> k in s.infos && k in t.infos && t.infos[k] == s.infos[k]
  }

  lemma TriedKeepsNews(p: ParamsOk, s: State, t: State, r: Stored, n: nat)
    requires Shaped(t.tried, p.triedBuckets, p.bucketSize) && SameNews(s, t, n) && t.idCount >= n
    ensures SameNews(s, LoadTried(p, t, r), n)
  {
  }

  /** The tried list does not touch the new one. */
  lemma {:induction false} TriedsKeepNews(p: ParamsOk, d: Disk, n: nat)
    requires n <= |d.trieds|
    ensures SameNews(News(p, d, |d.news|), Trieds(p, d, n), |d.news|)
  {
    if n == 0 {
      NewsLined(p, d, |d.news|);
    } else {
      TriedsKeepNews(p, d, n - 1);
      TriedsLined(p, d, n - 1);
      TriedKeepsNews(p, News(p, d, |d.news|), Trieds(p, d, n - 1), d.trieds[n - 1], |d.news|);
      TriedsStep(p, d, n - 1);
    }
  }

  lemma NoSlotYet(p: ParamsOk, d: Disk)
    requires Usable(p, d)
    ensures RowsAre(p, d, 0, LoadRows(p, d, 0))
  {
    NewsUnslotted(p, d, |d.news|);
    TriedsKeepNews(p, d, |d.trieds|);
  }

  lemma {:induction false} RowIdle(p: ParamsOk, d: Disk, s: State, b: nat, n: nat)
    requires b < |d.slots| && n <= |d.slots[b]| && !Usable(p, d) && Shaped(s.news, p.newBuckets, p.bucketSize)
    ensures LoadRow(p, d, s, b, n) == s
    decreases n
  {
    if n > 0 {
      RowIdle(p, d, s, b, n - 1);
    }
  }

  lemma {:induction false} RowsIdle(p: ParamsOk, d: Disk, b: nat)
    requires b <= |d.slots| && !Usable(p, d)
    ensures LoadRows(p, d, b) == Trieds(p, d, |d.trieds|)
  {
    if b > 0 {
      RowsIdle(p, d, b - 1);
      RowIdle(p, d, LoadRows(p, d, b - 1), b - 1, |d.slots[b - 1]|);
    }
  }

  /** An entry of the new list stays exactly if it gets a slot: from the buckets if they can be used, and its
      home slot otherwise. */
  ghost predicate NewStays(p: ParamsOk, d: Disk, k: nat)
    requires k < |d.news|
  {
    if Usable(p, d) then Count(p, d, |d.slots|, k) > 0 else HomeStays(p, d, k)
  }

  lemma NewStaysIff(p: ParamsOk, d: Disk)
    ensures var t := LoadRows(p, d, |d.slots|);
      forall k :: 0 <= k < |d.news| ==> k in t.infos && (t.infos[k].refCount != 0 <==> NewStays(p, d, k))
  {
    if Usable(p, d) {
      var t := RowsCount(p, d, |d.slots|);
    } else {
      var t := NewsHomes(p, d, |d.news|);
      TriedsKeepNews(p, d, |d.trieds|);
      RowsIdle(p, d, |d.slots|);
    }
  }
}
