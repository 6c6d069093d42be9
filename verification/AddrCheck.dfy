/** The conditions of the source's own consistency checker, one by one, from the invariant. */
module AddrCheck {
  import opened AddrTables
  import opened AddrState
  import opened AddrRuns

  /** The slots of a table that hold an entry. */
  function Slots(t: Table, id: int): set<(nat, nat)> {
    set b: nat, i: nat | b < |t| && i < |t[b]| && t[b][i] == id :: (b, i)
  }

  function Paired(p: ParamsOk, bs: set<nat>, a: Service): set<(nat, nat)> {
    set b | b in bs :: (b, Position(p, a, true, b))
  }

  lemma {:induction false} PairedSize(p: ParamsOk, bs: set<nat>, a: Service)
    ensures |Paired(p, bs, a)| == |bs|
    decreases |bs|
  {
    if bs == {} {
      assert Paired(p, bs, a) == {};
    } else {
      var b :| b in bs;
      PairedSize(p, bs - {b}, a);
      assert Paired(p, bs, a) == Paired(p, bs - {b}, a) + {(b, Position(p, a, true, b))};
    }
  }

  /** An entry of the new table is in as many slots as its reference count says. */
  lemma NewSlotCount(p: ParamsOk, s: State, id: int)
    requires Core(p, s, {}, 0) && id in s.infos
    ensures |Slots(s.news, id)| == s.infos[id].refCount
  {
    var a := s.infos[id].addr;
    Unfold(p, s, {}, 0);
    assert RefsOk(p, s.infos[id], s.news, id, false);
    var bs := Buckets(p, s.news, id, a);
    PairedSize(p, bs, a);
    forall b: nat, i: nat ensures (b, i) in Slots(s.news, id) <==> (b, i) in Paired(p, bs, a) {
      if (b, i) in Slots(s.news, id) {
        assert i == Position(p, a, true, b);
      }
    }
    assert Slots(s.news, id) == Paired(p, bs, a);
  }

  /** A tried entry is in one tried slot, any other in none. */
  lemma TriedSlotCount(p: ParamsOk, s: State, id: int)
    requires Core(p, s, {}, 0) && id in s.infos
    ensures |Slots(s.tried, id)| == if s.infos[id].inTried then 1 else 0
  {
    var a := s.infos[id].addr;
    Unfold(p, s, {}, 0);
    if s.infos[id].inTried {
      assert Slots(s.tried, id) == {(TriedBucket(p, a), TriedPosition(p, a))};
    } else {
      assert Slots(s.tried, id) == {};
    }
  }

  /** What the checker tests of one entry. */
  ghost predicate EntryPasses(s: State, id: int)
    requires id in s.infos
  {
    var info := s.infos[id];
    && (if info.inTried then info.lastSuccess != 0 && info.refCount == 0
        else 1 <= info.refCount <= NEW_BUCKETS_PER_ADDRESS)
    && info.addr.net in s.addrs && s.addrs[info.addr.net] == id
    && 0 <= info.randomPos < |s.random| && s.random[info.randomPos] == id
    && info.lastTry >= 0 && info.lastSuccess >= 0
    && |Slots(s.tried, id)| == (if info.inTried then 1 else 0)
    && |Slots(s.news, id)| == info.refCount
  }

  /** What the checker tests of the tables: an occupied slot holds an entry of its table, in the
      place the hashes give it. */
  ghost predicate TablesPass(p: ParamsOk, s: State) {
    && Shaped(s.tried, p.triedBuckets, p.bucketSize) && Shaped(s.news, p.newBuckets, p.bucketSize)
    && (forall b, i :: 0 <= b < p.triedBuckets && 0 <= i < p.bucketSize && s.tried[b][i] != -1 ==>
          var id := s.tried[b][i];
          id in TriedIds(s.infos) && TriedBucket(p, s.infos[id].addr) == b && Position(p, s.infos[id].addr, false, b) == i)
    && (forall b, i :: 0 <= b < p.newBuckets && 0 <= i < p.bucketSize && s.news[b][i] != -1 ==>
          s.news[b][i] in NewIds(s.infos) && Position(p, s.infos[s.news[b][i]].addr, true, b) == i)
  }

  lemma EntryChecks(p: ParamsOk, s: State, id: int)
    requires Core(p, s, {}, 0) && id in s.infos
    ensures EntryPasses(s, id)
  {
    NewSlotCount(p, s, id);
    TriedSlotCount(p, s, id);
    RefsOf(p, s, {}, 0, id);
    DatesOf(p, s, {}, 0, id);
    Unfold(p, s, {}, 0);
  }

  lemma SizesPass(p: ParamsOk, s: State)
    requires Core(p, s, {}, 0)
    ensures |s.random| == s.nTried + s.nNew && |TriedIds(s.infos)| == s.nTried && |NewIds(s.infos)| == s.nNew
    ensures TablesPass(p, s)
  {
    Unfold(p, s, {}, 0);
    RandomLength(s.infos, s.random);
  }

  /** Every condition of the checker holds in every state of every run from a fresh object. */
  lemma CheckPasses(p: ParamsOk, states: seq<State>, ops: seq<Op>, k: nat)
    requires IsRun(p, states, ops) && k <= |ops|
    ensures var s := states[k];
      && |s.random| == s.nTried + s.nNew && |TriedIds(s.infos)| == s.nTried && |NewIds(s.infos)| == s.nNew
      && TablesPass(p, s) && (forall id :: id in s.infos ==> EntryPasses(s, id))
      && |s.collisions| <= SET_TRIED_COLLISION_SIZE
  {
    RunValid(p, states, ops, k);
    var s := states[k];
    SizesPass(p, s);
    forall id | id in s.infos ensures EntryPasses(s, id) {
      EntryChecks(p, s, id);
    }
  }
}
