/** The public operations of the address manager on its state. */
module AddrOps {
  import opened AddrTables
  import opened AddrState

  // ----- MakeTried -----------------------------------------------------------------

  function HomeBucket(p: ParamsOk, info: Info): (b: nat)
    ensures b < p.newBuckets
  {
    NewBucket(p, info.addr, info.source)
  }

  function HomePosition(p: ParamsOk, info: Info): (i: nat)
    ensures i < p.bucketSize
  {
    Position(p, info.addr, true, HomeBucket(p, info))
  }

  ghost predicate CanEvict(p: ParamsOk, s: State, e: int) {
    && Shaped(s.tried, p.triedBuckets, p.bucketSize)
    && Shaped(s.news, p.newBuckets, p.bucketSize)
    && e in s.infos
    && CanClearNew(LeaveTriedSlot(p, s, e), HomeBucket(p, s.infos[e]), HomePosition(p, s.infos[e]))
    && var t := ClearNew(LeaveTriedSlot(p, s, e), HomeBucket(p, s.infos[e]), HomePosition(p, s.infos[e]));
    && e in t.infos && t.infos[e].addr == s.infos[e].addr
    && Shaped(t.news, p.newBuckets, p.bucketSize)
  }

  /** The incumbent of a tried slot goes back to its home slot in the new table. */
  ghost function Evict(p: ParamsOk, s: State, e: int): State
    requires CanEvict(p, s, e)
  {
    var b := HomeBucket(p, s.infos[e]);
    EnterNewSlot(p, ClearNew(LeaveTriedSlot(p, s, e), b, HomePosition(p, s.infos[e])), e, b)
  }

  lemma EvictLeaves(p: ParamsOk, s: State, e: int, id: int)
    requires Core(p, s, {id}, 1)
    requires id in s.infos && !s.infos[id].inTried && s.infos[id].refCount == 0
    requires e in s.infos && s.infos[e].inTried
    ensures var t := LeaveTriedSlot(p, s, e);
      && Core(p, t, {id} + {e}, 2)
      && InTable(t.news, HomeBucket(p, s.infos[e]), HomePosition(p, s.infos[e]))
      && t.news[HomeBucket(p, s.infos[e])][HomePosition(p, s.infos[e])] !in {id} + {e}
  {
    var t := LeaveTriedSlot(p, s, e);
    LeaveTriedSlotKeeps(p, s, e, {id}, 1);
    RefsOf(p, s, {id}, 1, e);
    NoSlot(p, t, {id} + {e}, 2, id, HomeBucket(p, s.infos[e]), HomePosition(p, s.infos[e]));
    NoSlot(p, t, {id} + {e}, 2, e, HomeBucket(p, s.infos[e]), HomePosition(p, s.infos[e]));
  }

  lemma ClearKeepsStats(s: State, t: State, b: nat, i: nat)
    requires InTable(s.news, b, i) && (s.news[b][i] != -1 ==> s.news[b][i] in s.infos)
    requires Moved(if s.news[b][i] == -1 then s.infos else Unref(s, b, i).infos, t.infos)
    ensures Kept(s.infos, t.infos)
  {
  }

  /** The first half of an eviction: out of tried, home slot cleared. */
  lemma EvictClears(p: ParamsOk, s: State, e: int, id: int)
    requires Core(p, s, {id}, 1)
    requires id in s.infos && !s.infos[id].inTried && s.infos[id].refCount == 0
    requires e in s.infos && s.infos[e].inTried
    ensures CanEvict(p, s, e)
    ensures var t := ClearNew(LeaveTriedSlot(p, s, e), HomeBucket(p, s.infos[e]), HomePosition(p, s.infos[e]));
      && Core(p, t, {id} + {e}, 2)
      && t == LeaveTriedSlot(p, s, e).(infos := t.infos, news := t.news, random := t.random, addrs := t.addrs, nNew := t.nNew)
      && t.news == SetSlot(s.news, HomeBucket(p, s.infos[e]), HomePosition(p, s.infos[e]), -1)
      && Kept(s.infos, t.infos)
      && e in t.infos && t.infos[e] == s.infos[e].(inTried := false, randomPos := t.infos[e].randomPos)
      && id in t.infos && t.infos[id] == s.infos[id].(randomPos := t.infos[id].randomPos)
  {
    var b, i := HomeBucket(p, s.infos[e]), HomePosition(p, s.infos[e]);
    var t1 := LeaveTriedSlot(p, s, e);
    EvictLeaves(p, s, e, id);
    ClearNewKeeps(p, t1, b, i, {id} + {e}, 2);
    var t2 := ClearNew(t1, b, i);
    ClearKeepsStats(t1, t2, b, i);
    HolderStays(t1, t2, b, i, e);
    HolderStays(t1, t2, b, i, id);
  }

  lemma EvictKeeps(p: ParamsOk, s: State, e: int, id: int)
    requires Core(p, s, {id}, 1)
    requires id in s.infos && !s.infos[id].inTried && s.infos[id].refCount == 0
    requires e in s.infos && s.infos[e].inTried
    ensures CanEvict(p, s, e)
    ensures var t := Evict(p, s, e);
      var a := s.infos[e].addr;
      && Core(p, t, {id}, 1)
      && t.tried == SetSlot(s.tried, TriedBucket(p, a), TriedPosition(p, a), -1)
      && t.news == SetSlot(s.news, HomeBucket(p, s.infos[e]), HomePosition(p, s.infos[e]), e)
      && t.idCount == s.idCount && t.collisions == s.collisions && t.lastGood == s.lastGood
      && Kept(s.infos, t.infos)
      && id in t.infos && t.infos[id].refCount == 0 && !t.infos[id].inTried && e in t.infos
  {
    var b, i := HomeBucket(p, s.infos[e]), HomePosition(p, s.infos[e]);
    EvictClears(p, s, e, id);
    RefsOf(p, s, {id}, 1, e);
    var t2 := ClearNew(LeaveTriedSlot(p, s, e), b, i);
    EnterNewSlotKeeps(p, t2, e, b, {id} + {e}, 2);
    assert {id} + {e} - {e} == {id};
    SetSlotTwice(s.news, b, i, -1, e);
  }

  lemma SetSlotTwice(t: Table, b: nat, i: nat, x: int, y: int)
    requires InTable(t, b, i)
    ensures SetSlot(SetSlot(t, b, i, x), b, i, y) == SetSlot(t, b, i, y)
  {
    assert t[b][i := x][i := y] == t[b][i := y];
  }

  /** Entries that do not hold the cleared slot are untouched by ClearNew. */
  lemma HolderStays(s: State, t: State, b: nat, i: nat, id: int)
    requires CanClearNew(s, b, i) && t == ClearNew(s, b, i) && id in s.infos && s.news[b][i] != id
    requires t.infos.Keys >= s.infos.Keys - {s.news[b][i]}
    requires Moved(if s.news[b][i] == -1 then s.infos else Unref(s, b, i).infos, t.infos)
    ensures id in t.infos && t.infos[id] == s.infos[id].(randomPos := t.infos[id].randomPos)
  {
    assert id in t.infos.Keys;
  }

  function TriedSlot(p: ParamsOk, s: State, a: Service): int
    requires Shaped(s.tried, p.triedBuckets, p.bucketSize)
  {
    s.tried[TriedBucket(p, a)][TriedPosition(p, a)]
  }

  /** Moves an untried entry into its tried slot, sending the incumbent back to new. */
  ghost function MakeTried(p: ParamsOk, s: State, id: int): State
    requires Core(p, s, {}, 0) && id in s.infos && !s.infos[id].inTried
  {
    LeaveNewKeeps(p, s, id);
    var t := LeaveNew(p, s, id);
    var e := TriedSlot(p, s, s.infos[id].addr);
    if e == -1 then EnterTriedSlot(p, t, id)
    else
      TriedHolder(p, s, {}, 0, TriedBucket(p, s.infos[id].addr), TriedPosition(p, s.infos[id].addr));
      EvictKeeps(p, t, e, id);
      EnterTriedSlot(p, Evict(p, t, e), id)
  }

  /** The new table once `id` has moved to tried. */
  function NewsAfterMove(p: ParamsOk, s: State, id: int): Table
    requires Shaped(s.tried, p.triedBuckets, p.bucketSize) && Shaped(s.news, p.newBuckets, p.bucketSize) && id in s.infos
  {
    var a := s.infos[id].addr;
    var e := TriedSlot(p, s, a);
    var cleared := ClearedAll(p, s.news, id, a);
    if e == -1 || e !in s.infos then cleared
    else SetSlot(cleared, HomeBucket(p, s.infos[e]), HomePosition(p, s.infos[e]), e)
  }

  /** MakeTried leaves every table in step; exactly one tried slot changes, the entry leaves
      all its new slots and the former incumbent, if any, holds its home slot instead. */
  lemma MakeTriedKeeps(p: ParamsOk, s: State, id: int)
    requires Core(p, s, {}, 0) && id in s.infos && !s.infos[id].inTried && s.infos[id].lastSuccess != 0
    ensures var t := MakeTried(p, s, id);
      var a := s.infos[id].addr;
      && Core(p, t, {}, 0)
      && t.tried == SetSlot(s.tried, TriedBucket(p, a), TriedPosition(p, a), id)
      && t.news == NewsAfterMove(p, s, id)
      && t.idCount == s.idCount && t.collisions == s.collisions && t.lastGood == s.lastGood
      && Kept(s.infos, t.infos)
      && id in t.infos && t.infos[id].inTried
  {
    LeaveNewKeeps(p, s, id);
    var t := LeaveNew(p, s, id);
    var a := s.infos[id].addr;
    var e := TriedSlot(p, s, a);
    if e == -1 {
      EnterTriedSlotKeeps(p, t, id);
    } else {
      TriedHolder(p, s, {}, 0, TriedBucket(p, a), TriedPosition(p, a));
      EvictKeeps(p, t, e, id);
      var u := Evict(p, t, e);
      assert SameStats(t.infos[id], u.infos[id]);
      EnterTriedSlotKeeps(p, u, id);
      SetSlotTwice(s.tried, TriedBucket(p, a), TriedPosition(p, a), -1, id);
    }
  }

  lemma MakeTriedValid(p: ParamsOk, s: State, id: int)
    requires Valid(p, s) && id in s.infos && !s.infos[id].inTried && s.infos[id].lastSuccess != 0
    ensures Valid(p, MakeTried(p, s, id)) && StillOccupied(s.tried, MakeTried(p, s, id).tried)
  {
    MakeTriedKeeps(p, s, id);
    var a := s.infos[id].addr;
    DatesOf(p, s, {}, 0, id);
    FilledStays(s.tried, TriedBucket(p, a), TriedPosition(p, a), id);
    WaitersStay(p, s, MakeTried(p, s, id));
  }

  lemma FilledStays(t: Table, b: nat, i: nat, id: int)
    requires InTable(t, b, i) && id != -1
    ensures StillOccupied(t, SetSlot(t, b, i, id))
  {
  }

  /** Who waits for an occupied slot still does. */
  lemma WaitersStay(p: ParamsOk, s: State, t: State)
    requires CollisionsOk(p, s.infos, s.tried, s.collisions, s.idCount) && StillOccupied(s.tried, t.tried)
    requires Kept(s.infos, t.infos) && t.collisions == s.collisions && t.idCount == s.idCount
    requires Shaped(t.tried, p.triedBuckets, p.bucketSize)
    ensures CollisionsOk(p, t.infos, t.tried, t.collisions, t.idCount)
  {
    CollisionsCarry(p, s.infos, s.tried, t.infos, t.tried, s.collisions, s.idCount, t.idCount);
  }

  // ----- operations that touch statistics only ---------------------------------------

  ghost predicate StatsUpdate(a: Info, b: Info) {
    && b.addr == a.addr && b.refCount == a.refCount && b.inTried == a.inTried && b.randomPos == a.randomPos
    && b.lastTry >= 0 && b.lastSuccess >= 0 && (b.inTried ==> b.lastSuccess != 0)
  }

  function Touch(s: State, id: int, info: Info): State { s.(infos := s.infos[id := info]) }

  lemma TouchKeeps(p: ParamsOk, s: State, id: int, info: Info)
    requires Valid(p, s) && id in s.infos && StatsUpdate(s.infos[id], info)
    ensures Valid(p, Touch(s, id, info))
  {
    TouchKeepsCore(p, s, Touch(s, id, info), id, info);
    CollisionsCarry(p, s.infos, s.tried, s.infos[id := info], s.tried, s.collisions, s.idCount, s.idCount);
  }

  lemma TouchKeepsCore(p: ParamsOk, s: State, t: State, id: int, info: Info)
    requires Core(p, s, {}, 0) && id in s.infos && StatsUpdate(s.infos[id], info) && t == Touch(s, id, info)
    ensures Core(p, t, {}, 0)
  {
    Unfold(p, s, {}, 0);
    TouchKeepsOrder(s, id, info);
    ShapeKeepsTables(p, s.infos, t.infos, s.news, s.tried, {});
    ShapeKeepsIndexes(s.infos, t.infos, s.addrs);
    Fold(p, t, {}, 0);
  }

  lemma TouchKeepsOrder(s: State, id: int, info: Info)
    requires RandomOk(s.infos, s.random) && InfoOk(s.infos, s.idCount)
    requires id in s.infos && StatsUpdate(s.infos[id], info)
    ensures RandomOk(s.infos[id := info], s.random) && InfoOk(s.infos[id := info], s.idCount)
    ensures SameShape(s.infos, s.infos[id := info])
  {
  }

  /** Find with the exact-service test that follows it everywhere: the id, or -1. */
  function Lookup(s: State, addr: Service): (id: int)
    ensures id != -1 ==> id in s.infos && s.infos[id].addr == addr
  {
    if addr.net !in s.addrs then -1
    else
      var id := s.addrs[addr.net];
      if id == -1 || id !in s.infos || s.infos[id].addr != addr then -1 else id
  }

  function Attempt(s: State, addr: Service, countFailure: bool, nTime: int): State {
    var id := Lookup(s, addr);
    if id == -1 then s
    else
      var info := s.infos[id].(lastTry := nTime);
      Touch(s, id,
        if countFailure && info.lastCountAttempt < s.lastGood
        then info.(lastCountAttempt := nTime, attempts := info.attempts + 1) else info)
  }

  function Connected(s: State, addr: Service, nTime: int): State {
    var id := Lookup(s, addr);
    if id == -1 then s
    else
      var info := s.infos[id];
      Touch(s, id, if nTime - info.nTime > 20 * 60 then info.(nTime := nTime) else info)
  }

  function SetServices(s: State, addr: Service, services: set<nat>): State {
    var id := Lookup(s, addr);
    if id == -1 then s else Touch(s, id, s.infos[id].(services := services))
  }

  lemma AttemptValid(p: ParamsOk, s: State, addr: Service, countFailure: bool, nTime: int)
    requires Valid(p, s) && nTime >= 0
    ensures Valid(p, Attempt(s, addr, countFailure, nTime))
  {
    var id := Lookup(s, addr);
    if id != -1 {
      DatesOf(p, s, {}, 0, id);
      TouchKeeps(p, s, id, Attempt(s, addr, countFailure, nTime).infos[id]);
    }
  }

  lemma ConnectedValid(p: ParamsOk, s: State, addr: Service, nTime: int)
    requires Valid(p, s)
    ensures Valid(p, Connected(s, addr, nTime))
  {
    var id := Lookup(s, addr);
    if id != -1 {
      DatesOf(p, s, {}, 0, id);
      TouchKeeps(p, s, id, Connected(s, addr, nTime).infos[id]);
    }
  }

  lemma SetServicesValid(p: ParamsOk, s: State, addr: Service, services: set<nat>)
    requires Valid(p, s)
    ensures Valid(p, SetServices(s, addr, services))
  {
    var id := Lookup(s, addr);
    if id != -1 {
      DatesOf(p, s, {}, 0, id);
      TouchKeeps(p, s, id, SetServices(s, addr, services).infos[id]);
    }
  }

  // ----- Good ------------------------------------------------------------------------

  function MarkGood(s: State, id: int, nTime: int): State
    requires id in s.infos
  {
    Touch(s.(lastGood := nTime), id, s.infos[id].(lastSuccess := nTime, lastTry := nTime, attempts := 0))
  }

  /** Good_; the exit for an untried entry that sits in no new bucket is kept. */
  ghost function Good(p: ParamsOk, s: State, addr: Service, testBeforeEvict: bool, nTime: int): State
    requires Valid(p, s) && nTime > 0
  {
    var id := Lookup(s, addr);
    if id == -1 then s.(lastGood := nTime)
    else
      MarkGoodValid(p, s, id, nTime);
      var t := MarkGood(s, id, nTime);
      if t.infos[id].inTried then t
      else if Buckets(p, t.news, id, addr) == {} then t
      else if testBeforeEvict && TriedSlot(p, t, addr) != -1 then
        t.(collisions := if |t.collisions| < SET_TRIED_COLLISION_SIZE then t.collisions + {id} else t.collisions)
      else MakeTried(p, t, id)
  }

  lemma MarkGoodValid(p: ParamsOk, s: State, id: int, nTime: int)
    requires Valid(p, s) && id in s.infos && nTime > 0
    ensures Valid(p, MarkGood(s, id, nTime))
  {
    OthersKeep(p, s, s.(lastGood := nTime), {}, 0);
    TouchKeeps(p, s.(lastGood := nTime), id, s.infos[id].(lastSuccess := nTime, lastTry := nTime, attempts := 0));
  }

  /** Good_ keeps the tables in step, never empties a tried slot, and never takes its
      "something bad happened" exit. */
  lemma GoodValid(p: ParamsOk, s: State, addr: Service, testBeforeEvict: bool, nTime: int)
    requires Valid(p, s) && nTime > 0
    ensures Valid(p, Good(p, s, addr, testBeforeEvict, nTime))
    ensures StillOccupied(s.tried, Good(p, s, addr, testBeforeEvict, nTime).tried)
    ensures Lookup(s, addr) != -1 && !s.infos[Lookup(s, addr)].inTried ==> Buckets(p, s.news, Lookup(s, addr), addr) != {}
  {
    var id := Lookup(s, addr);
    if id == -1 {
      OthersKeep(p, s, s.(lastGood := nTime), {}, 0);
    } else {
      MarkGoodValid(p, s, id, nTime);
      var t := MarkGood(s, id, nTime);
      if !t.infos[id].inTried {
        UntriedHasBucket(p, t, id);
        if testBeforeEvict && TriedSlot(p, t, addr) != -1 {
          WaitKeeps(p, t, id);
        } else {
          MakeTriedValid(p, t, id);
        }
      }
    }
  }

  lemma UntriedHasBucket(p: ParamsOk, s: State, id: int)
    requires Core(p, s, {}, 0) && id in s.infos && !s.infos[id].inTried
    ensures Buckets(p, s.news, id, s.infos[id].addr) != {}
  {
    RefsOf(p, s, {}, 0, id);
  }

  /** An entry may join the collision set when its tried slot is occupied. */
  lemma WaitKeeps(p: ParamsOk, s: State, id: int)
    requires Valid(p, s) && id in s.infos && TriedSlot(p, s, s.infos[id].addr) != -1
    ensures |s.collisions| < SET_TRIED_COLLISION_SIZE ==> Valid(p, s.(collisions := s.collisions + {id}))
  {
    OthersKeep(p, s, s.(collisions := s.collisions + {id}), {}, 0);
    DatesOf(p, s, {}, 0, id);
  }
}
