/** The address manager as an object.  Every method is the source's code on its own fields
    and is specified by the operation on the whole state that carries the theorems. */
module AddrMan {
  import opened AddrTables
  import AddrState
  import AddrOps
  import AddrRuns
  import AddrEffects

  class AddrMan {
    const p: ParamsOk
    var nIdCount: int
    var mapInfo: Infos
    var mapAddr: map<NetAddr, int>
    var vRandom: seq<int>
    var nTried: int
    var vvTried: Table
    var nNew: int
    var vvNew: Table
    var nLastGood: int
    var collisions: set<int>

    ghost function S(): AddrState.State
      reads this
    {
      AddrState.State(nIdCount, mapInfo, mapAddr, vRandom, nTried, vvTried, nNew, vvNew, nLastGood, collisions)
    }

    constructor (params: ParamsOk)
      ensures p == params && S() == AddrState.Fresh(p) && AddrState.Valid(p, S())
    {
      p := params;
      nIdCount, mapInfo, mapAddr, vRandom := 0, map[], map[], [];
      nTried, vvTried := 0, EmptyTable(params.triedBuckets, params.bucketSize);
      nNew, vvNew := 0, EmptyTable(params.newBuckets, params.bucketSize);
      nLastGood, collisions := 1, {};
      new;
      AddrState.FreshValid(p);
    }

    // ----- private helpers of the source -----------------------------------------------

    method SwapRandom(i: int, j: int)
      requires AddrState.CanSwap(S(), i, j)
      modifies this`mapInfo, this`vRandom
      ensures S() == AddrState.SwapRandom(old(S()), i, j)
    {
      if i == j {
        return;
      }
      var id1, id2 := vRandom[i], vRandom[j];
      mapInfo := mapInfo[id1 := mapInfo[id1].(randomPos := j)];
      mapInfo := mapInfo[id2 := mapInfo[id2].(randomPos := i)];
      vRandom := vRandom[i := id2];
      vRandom := vRandom[j := id1];
    }

    method Delete(id: int)
      requires AddrState.CanDelete(S(), id)
      modifies this`mapInfo, this`vRandom, this`mapAddr, this`nNew
      ensures S() == AddrState.Delete(old(S()), id)
    {
      SwapRandom(mapInfo[id].randomPos, |vRandom| - 1);
      vRandom := vRandom[..|vRandom| - 1];
      mapAddr := mapAddr - {mapInfo[id].addr.net};
      mapInfo := mapInfo - {id};
      nNew := nNew - 1;
    }

    method ClearNew(b: nat, i: nat)
      requires AddrState.CanClearNew(S(), b, i)
      modifies this`mapInfo, this`vRandom, this`mapAddr, this`nNew, this`vvNew
      ensures S() == AddrState.ClearNew(old(S()), b, i)
    {
      if vvNew[b][i] != -1 {
        var id := vvNew[b][i];
        mapInfo := mapInfo[id := mapInfo[id].(refCount := mapInfo[id].refCount - 1)];
        vvNew := SetSlot(vvNew, b, i, -1);
        if mapInfo[id].refCount == 0 {
          Delete(id);
        }
      }
    }

    /** Takes the entry out of the new table; `info` is a reference to the entry in the source. */
    method LeaveNew(id: int)
      requires Shaped(vvNew, p.newBuckets, p.bucketSize) && id in mapInfo && id != -1
      modifies this`mapInfo, this`vvNew, this`nNew
      ensures S() == AddrState.LeaveNew(p, old(S()), id)
    {
      var refCount := LeaveBuckets(id, mapInfo[id]);
      mapInfo := mapInfo[id := mapInfo[id].(refCount := refCount)];
      nNew := nNew - 1;
    }

    /** The loop of MakeTried over all new buckets. */
    method LeaveBuckets(id: int, info: Info) returns (refCount: int)
      requires Shaped(vvNew, p.newBuckets, p.bucketSize) && id != -1
      modifies this`vvNew
      ensures vvNew == AddrState.ClearedAll(p, old(vvNew), id, info.addr)
      ensures refCount == info.refCount - |Buckets(p, old(vvNew), id, info.addr)|
    {
      ghost var before := vvNew;
      refCount := info.refCount;
      var bucket := 0;
      while bucket < p.newBuckets
        invariant 0 <= bucket <= p.newBuckets && vvNew == LeftBelow(p, before, id, info.addr, bucket)
        invariant refCount == info.refCount - |BucketsBelow(p, before, id, info.addr, bucket)|
      {
        LeftStep(p, before, id, info.addr, bucket);
        var pos := Position(p, info.addr, true, bucket);
        if vvNew[bucket][pos] == id {
          vvNew := SetSlot(vvNew, bucket, pos, -1);
          refCount := refCount - 1;
        }
        bucket := bucket + 1;
      }
      AllBucketsLeft(p, before, id, info.addr);
    }

    method MakeTried(id: int)
      requires AddrState.Core(p, S(), {}, 0) && id in mapInfo && !mapInfo[id].inTried
      modifies this
      ensures S() == AddrOps.MakeTried(p, old(S()), id)
    {
      ghost var s := S();
      AddrState.LeaveNewKeeps(p, s, id);
      AddrState.DatesOf(p, s, {}, 0, id);
      LeaveNew(id);
      assert mapInfo[id].refCount == 0;
      var addr := mapInfo[id].addr;
      var bucket := TriedBucket(p, addr);
      var pos := TriedPosition(p, addr);
      if vvTried[bucket][pos] != -1 {
        var evict := vvTried[bucket][pos];
        AddrState.TriedHolder(p, S(), {id}, 1, bucket, pos);
        AddrOps.EvictKeeps(p, S(), evict, id);
        EvictIncumbent(evict, bucket, pos);
      }
      assert vvTried[bucket][pos] == -1;
      vvTried := SetSlot(vvTried, bucket, pos, id);
      nTried := nTried + 1;
      mapInfo := mapInfo[id := mapInfo[id].(inTried := true)];
    }

    /** The part of MakeTried that sends the incumbent of a tried slot back to new. */
    method EvictIncumbent(evict: int, bucket: nat, pos: nat)
      requires AddrOps.CanEvict(p, S(), evict)
      requires bucket == TriedBucket(p, mapInfo[evict].addr) && pos == TriedPosition(p, mapInfo[evict].addr)
      modifies this
      ensures S() == AddrOps.Evict(p, old(S()), evict)
    {
      mapInfo := mapInfo[evict := mapInfo[evict].(inTried := false)];
      vvTried := SetSlot(vvTried, bucket, pos, -1);
      nTried := nTried - 1;
      assert S() == AddrState.LeaveTriedSlot(p, old(S()), evict);
      var b := NewBucket(p, mapInfo[evict].addr, mapInfo[evict].source);
      var i := Position(p, mapInfo[evict].addr, true, b);
      ClearNew(b, i);
      mapInfo := mapInfo[evict := mapInfo[evict].(refCount := 1)];
      vvNew := SetSlot(vvNew, b, i, evict);
      nNew := nNew + 1;
    }

    method Find(addr: Service) returns (id: int)
      ensures id == AddrOps.Lookup(S(), addr)
    {
      if addr.net !in mapAddr {
        return -1;
      }
      id := mapAddr[addr.net];
      if id !in mapInfo || mapInfo[id].addr != addr {
        id := -1;
      }
    }

    // ----- public operations ----------------------------------------------------------

    /** `start` is the random bucket at which the search for a new slot begins. */
    method Good(addr: Service, testBeforeEvict: bool, nTime: int, start: nat)
      requires AddrState.Valid(p, S()) && nTime > 0 && start < p.newBuckets
      modifies this
      ensures S() == AddrOps.Good(p, old(S()), addr, testBeforeEvict, nTime)
      ensures AddrState.Valid(p, S())
      ensures AddrEffects.GoodDone(p, old(S()), S(), addr, testBeforeEvict, nTime)
    {
      ghost var s := S();
      AddrEffects.GoodEffect(p, s, addr, testBeforeEvict, nTime);
      AddrOps.GoodValid(p, s, addr, testBeforeEvict, nTime);
      nLastGood := nTime;
      var id := Find(addr);
      if id == -1 {
        return;
      }
      AddrOps.MarkGoodValid(p, s, id, nTime);
      mapInfo := mapInfo[id := mapInfo[id].(lastSuccess := nTime, lastTry := nTime, attempts := 0)];
      if mapInfo[id].inTried {
        return;
      }
      AddrOps.UntriedHasBucket(p, S(), id);
      var found := FindNewBucket(id, start);
      assert found != -1;  // "something bad happened" does not
      var slot := vvTried[TriedBucket(p, addr)][TriedPosition(p, addr)];
      if testBeforeEvict && slot != -1 {
        if |collisions| < SET_TRIED_COLLISION_SIZE {
          collisions := collisions + {id};
        }
      } else {
        MakeTried(id);
      }
    }

    /** The cyclic search of Good_: a bucket holding the entry if there is one, else -1. */
    method FindNewBucket(id: int, start: nat) returns (found: int)
      requires Shaped(vvNew, p.newBuckets, p.bucketSize) && id in mapInfo && start < p.newBuckets
      ensures found == -1 <==> Buckets(p, vvNew, id, mapInfo[id].addr) == {}
      ensures found != -1 ==> found in Buckets(p, vvNew, id, mapInfo[id].addr)
    {
      found := -1;
      var n := 0;
      while n < p.newBuckets
        invariant 0 <= n <= p.newBuckets
        invariant forall k :: 0 <= k < n ==> Cyclic(k, start, p.newBuckets) !in Buckets(p, vvNew, id, mapInfo[id].addr)
      {
        var b := Cyclic(n, start, p.newBuckets);
        if vvNew[b][Position(p, mapInfo[id].addr, true, b)] == id {
          assert b in Buckets(p, vvNew, id, mapInfo[id].addr);
          return b;
        }
        n := n + 1;
      }
      forall b: nat | b < p.newBuckets ensures b !in Buckets(p, vvNew, id, mapInfo[id].addr) {
        var k := if b >= start then b - start else b - start + p.newBuckets;
        assert Cyclic(k, start, p.newBuckets) == b;
      }
    }

    method Attempt(addr: Service, countFailure: bool, nTime: int)
      requires AddrState.Valid(p, S()) && nTime >= 0
      modifies this`mapInfo
      ensures S() == AddrOps.Attempt(old(S()), addr, countFailure, nTime)
      ensures AddrState.Valid(p, S())
      ensures AddrEffects.AttemptDone(old(S()), S(), addr, countFailure, nTime)
    {
      AddrEffects.EntryEffects(p, S(), addr, countFailure, nTime, {});
      AddrOps.AttemptValid(p, S(), addr, countFailure, nTime);
      var id := Find(addr);
      if id != -1 {
        var info := mapInfo[id].(lastTry := nTime);
        if countFailure && info.lastCountAttempt < nLastGood {
          info := info.(lastCountAttempt := nTime, attempts := info.attempts + 1);
        }
        mapInfo := mapInfo[id := info];
      }
    }

    method Connected(addr: Service, nTime: int)
      requires AddrState.Valid(p, S()) && nTime >= 0
      modifies this`mapInfo
      ensures S() == AddrOps.Connected(old(S()), addr, nTime)
      ensures AddrState.Valid(p, S())
      ensures AddrEffects.ConnectedDone(old(S()), S(), addr, nTime)
    {
      AddrEffects.EntryEffects(p, S(), addr, false, nTime, {});
      AddrOps.ConnectedValid(p, S(), addr, nTime);
      var id := Find(addr);
      if id != -1 {
        assert mapInfo[id := mapInfo[id]] == mapInfo;
        if nTime - mapInfo[id].nTime > 20 * 60 {
          mapInfo := mapInfo[id := mapInfo[id].(nTime := nTime)];
        }
      }
    }

    method SetServices(addr: Service, services: set<nat>)
      requires AddrState.Valid(p, S())
      modifies this`mapInfo
      ensures S() == AddrOps.SetServices(old(S()), addr, services)
      ensures AddrState.Valid(p, S())
      ensures AddrEffects.ServicesDone(old(S()), S(), addr, services)
    {
      AddrEffects.EntryEffects(p, S(), addr, false, 0, services);
      AddrOps.SetServicesValid(p, S(), addr, services);
      var id := Find(addr);
      if id != -1 {
        mapInfo := mapInfo[id := mapInfo[id].(services := services)];
      }
    }

    /** `lucky` is the outcome of the stochastic test for one more reference. */
    method Add(x: AddrRuns.Announced, source: NetAddr, nTimePenalty: int, now: int, later: int, lucky: bool) returns (isNew: bool)
      requires AddrState.Valid(p, S())
      modifies this
      ensures (S(), isNew) == AddrRuns.Add(p, old(S()), x, source, nTimePenalty, now, later, lucky)
      ensures AddrState.Valid(p, S())
      ensures AddrEffects.AddDone(p, old(S()), S(), x, source, nTimePenalty, now, later, lucky, isNew)
    {
      AddrEffects.AddEffect(p, S(), x, source, nTimePenalty, now, later, lucky);
      AddrRuns.AddValid(p, S(), x, source, nTimePenalty, now, later, lucky);
      if !p.isRoutable(x.addr.net) {
        return false;
      }
      var penalty := if x.addr.net == source then 0 else nTimePenalty;
      if x.addr.net in mapAddr {
        AddKnown(x, source, penalty, now, later, lucky);
        return false;
      }
      AddUnknown(x, source, penalty, later);
      isNew := true;
    }

    method AddUnknown(x: AddrRuns.Announced, source: NetAddr, penalty: int, later: int)
      requires AddrState.Valid(p, S()) && x.addr.net !in mapAddr
      modifies this
      ensures S() == AddrRuns.AddUnknown(p, old(S()), x, source, penalty, later)
      ensures AddrEffects.HeardFirst(p, old(S()), S(), x, source, penalty, later)
    {
      AddrEffects.FirstEffect(p, S(), x, source, penalty, later);
      AddrRuns.CreateKeeps(p, S(), x, source, penalty);
      var id := Create(x, source, penalty);
      Place(id, NewBucket(p, x.addr, source), later);
    }

    method Create(x: AddrRuns.Announced, source: NetAddr, penalty: int) returns (id: int)
      modifies this`nIdCount, this`mapInfo, this`mapAddr, this`vRandom, this`nNew
      ensures S() == AddrRuns.Create(old(S()), x, source, penalty) && id == old(nIdCount)
    {
      id := nIdCount;
      nIdCount := nIdCount + 1;
      var nTime := if x.nTime - penalty < 0 then 0 else x.nTime - penalty;
      mapInfo := mapInfo[id := Info(x.addr, source, nTime, x.services, 0, 0, 0, 0, 0, false, |vRandom|)];
      mapAddr := mapAddr[x.addr.net := id];
      vRandom := vRandom + [id];
      nNew := nNew + 1;
    }

    method AddKnown(x: AddrRuns.Announced, source: NetAddr, penalty: int, now: int, later: int, lucky: bool)
      requires AddrState.Valid(p, S()) && x.addr.net in mapAddr
      modifies this
      ensures S() == AddrRuns.AddKnown(p, old(S()), x, source, penalty, now, later, lucky)
      ensures AddrEffects.HeardAgain(p, old(S()), S(), old(mapAddr)[x.addr.net], x, source, penalty, now, later, lucky)
    {
      AddrEffects.AgainEffect(p, S(), x, source, penalty, now, later, lucky);
      AddrState.EntryOf(p, S(), {}, 0, x.addr.net);
      var id := mapAddr[x.addr.net];
      AddrRuns.RefreshValid(p, S(), id, x, penalty, now);
      var info := mapInfo[id];
      var interval := if now - x.nTime < 24 * 60 * 60 then 60 * 60 else 24 * 60 * 60;
      if x.nTime != 0 && (info.nTime == 0 || info.nTime < x.nTime - interval - penalty) {
        info := info.(nTime := if x.nTime - penalty < 0 then 0 else x.nTime - penalty);
      }
      info := info.(services := info.services + x.services);
      mapInfo := mapInfo[id := info];
      if x.nTime == 0 || (info.nTime != 0 && x.nTime <= info.nTime) {
        return;
      }
      if info.inTried || info.refCount == NEW_BUCKETS_PER_ADDRESS {
        return;
      }
      if info.refCount > 0 && !lucky {
        return;
      }
      Place(id, NewBucket(p, info.addr, source), later);
    }

    method Place(id: int, b: nat, now: int)
      requires AddrState.Core(p, S(), {id}, 0) && id in mapInfo && !mapInfo[id].inTried && b < p.newBuckets
      modifies this
      ensures S() == AddrRuns.Place(p, old(S()), id, b, now)
    {
      var i := Position(p, mapInfo[id].addr, true, b);
      if vvNew[b][i] != id {
        var insert := vvNew[b][i] == -1;
        if !insert {
          AddrState.SlotHolder(p, S(), b, i, {id}, 0);
          var existing := mapInfo[vvNew[b][i]];
          insert := AddrRuns.IsTerrible(existing, now) || (existing.refCount > 1 && mapInfo[id].refCount == 0);
        }
        if insert {
          AddrState.ClearNewKeeps(p, S(), b, i, {id}, 0);
          AddrOps.HolderStays(S(), AddrState.ClearNew(S(), b, i), b, i, id);
          ClearNew(b, i);
          Refer(id, b, i);
        } else if mapInfo[id].refCount == 0 {
          AddrState.DeleteKeeps(p, S(), id, {id}, 0);
          Delete(id);
        }
      }
    }

    method Refer(id: int, b: nat, i: nat)
      requires Shaped(vvNew, p.newBuckets, p.bucketSize) && id in mapInfo && b < p.newBuckets
      requires i == Position(p, mapInfo[id].addr, true, b)
      modifies this`mapInfo, this`vvNew
      ensures S() == AddrRuns.Refer(p, old(S()), id, b)
    {
      mapInfo := mapInfo[id := mapInfo[id].(refCount := mapInfo[id].refCount + 1)];
      vvNew := SetSlot(vvNew, b, i, id);
    }

    /** Visits the collision set in some order, which it reports. */
    method ResolveCollisions(clock: nat -> AddrRuns.Readings) returns (ghost order: seq<int>)
      requires AddrState.Valid(p, S()) && AddrRuns.Ticking(clock)
      modifies this
      ensures AddrState.Valid(p, S()) && collisions <= old(collisions)
      ensures StillOccupied(old(vvTried), vvTried)
      ensures S() == AddrRuns.ResolveAll(p, old(S()), order, clock)
      ensures forall id :: id in old(collisions) <==> id in order
    {
      var todo, visits: nat := collisions, 0;
      order := [];
      while todo != {}
        invariant AddrState.Valid(p, S()) && todo <= collisions <= old(collisions)
        invariant StillOccupied(old(vvTried), vvTried) && visits == |order|
        invariant S() == AddrRuns.ResolveAll(p, old(S()), order, clock)
        invariant forall id :: id in old(collisions) <==> id in todo || id in order
        decreases |todo|
      {
        ghost var some := AddrRuns.Member(todo);
        var id :| id in todo;
        ghost var s := S();
        AddrRuns.ResolveOneValid(p, s, id, clock(visits));
        ResolveOne(id, clock(visits));
        visits := visits + 1;
        todo := todo - {id};
        AddrRuns.ResolveNext(p, old(S()), order, id, clock);
        order := order + [id];
      }
    }

    method ResolveOne(id: int, at: AddrRuns.Readings)
      requires AddrState.Valid(p, S()) && at.stamp > 0 && id in collisions
      modifies this
      ensures S() == AddrRuns.ResolveOne(p, old(S()), id, at)
      ensures AddrEffects.ResolveDone(p, old(S()), S(), id, at)
    {
      AddrEffects.ResolveEffect(p, S(), id, at);
      var erase := false;
      if id !in mapInfo {
        erase := true;
      } else {
        var addr := mapInfo[id].addr;
        var slot := vvTried[TriedBucket(p, addr)][TriedPosition(p, addr)];
        AddrRuns.CollisionHolderKnown(p, S(), id);
        if !p.isValid(addr.net) {
          erase := true;
        } else if slot != -1 {
          var incumbent := mapInfo[slot];
          if at.success - incumbent.lastSuccess < AddrRuns.ADDRMAN_REPLACEMENT {
            erase := true;
          } else if at.attempt - incumbent.lastTry < AddrRuns.ADDRMAN_REPLACEMENT {
            if at.patience - incumbent.lastTry > 60 {
              Good(addr, false, at.stamp, 0);
              erase := true;
            }
          }
        } else {
          assert false;  // a collision never stops being one
        }
      }
      if erase {
        collisions := collisions - {id};
      }
    }

    /** `id` is the randomly chosen member of the collision set. */
    method SelectTriedCollision(id: int) returns (found: bool, info: Info)
      requires AddrState.Valid(p, S()) && id in collisions
      modifies this`collisions
      ensures AddrState.Valid(p, S())
      ensures found <==> id in mapInfo
      ensures collisions == if found then old(collisions) else old(collisions) - {id}
      ensures found ==>
        var slot := AddrOps.TriedSlot(p, S(), mapInfo[id].addr);
        slot in mapInfo && mapInfo[slot] == info && info.inTried
    {
      info := Info(Service(NetAddr([]), 0), NetAddr([]), 0, {}, 0, 0, 0, 0, 0, false, -1);
      if id !in mapInfo {
        AddrRuns.EraseKeeps(p, S(), id);
        collisions := collisions - {id};
        return false, info;
      }
      AddrRuns.CollisionHolderKnown(p, S(), id);
      AddrRuns.TriedHolderKnown(p, S(), mapInfo[id].addr);
      var slot := vvTried[TriedBucket(p, mapInfo[id].addr)][TriedPosition(p, mapInfo[id].addr)];
      return true, mapInfo[slot];
    }

    /** A random sample of good entries: at most 23% of all, at most 2500, no entry twice; no fewer unless every entry
        was looked at. */
    method GetAddr(clock: nat -> int) returns (addrs: seq<Service>, ghost ids: seq<int>)
      requires AddrState.Valid(p, S())
      modifies this`mapInfo, this`vRandom
      ensures AddrState.Valid(p, S())
      ensures |addrs| <= 2500 && 100 * |addrs| <= 23 * |vRandom| && |vRandom| == |old(vRandom)|
      ensures Sample(mapInfo, ids, addrs, clock, |vRandom|)
      ensures |addrs| == 2500 || 100 * (|addrs| + 1) > 23 * |vRandom| || forall id :: id in mapInfo ==> Looked(mapInfo, id, ids, clock)
      ensures mapInfo.Keys == old(mapInfo).Keys && AddrState.Moved(old(mapInfo), mapInfo)
    {
      var nNodes := 23 * |vRandom| / 100;
      if nNodes > 2500 {
        nNodes := 2500;
      }
      addrs, ids := [], [];
      var n := 0;
      while n < |vRandom|
        invariant AddrState.Valid(p, S()) && 0 <= n <= |vRandom| == |old(vRandom)|
        invariant |addrs| <= nNodes
        invariant Sample(mapInfo, ids, addrs, clock, n)
        invariant AllLooked(mapInfo, vRandom, ids, clock, n)
        invariant mapInfo.Keys == old(mapInfo).Keys && AddrState.Moved(old(mapInfo), mapInfo)
      {
        if |addrs| >= nNodes {
          break;
        }
        var pos :| n <= pos < |vRandom|;
        AddrRuns.ShuffleValid(p, S(), n, pos);
        SampleSurvives(p, S(), n, pos, ids, addrs, clock);
        LooksSurvive(p, S(), n, pos, ids, clock);
        SwapRandom(n, pos);
        var info := mapInfo[vRandom[n]];
        if !AddrRuns.IsTerrible(info, clock(n)) {
          addrs := addrs + [info.addr];
          ids := ids + [vRandom[n]];
        }
        n := n + 1;
      }
      if n == |vRandom| {
        EveryLook(p, S(), ids, clock);
      }
    }
  }

  /** The entry is in the sample or was terrible when it was looked at. */
  ghost predicate Looked(m: Infos, id: int, ids: seq<int>, clock: nat -> int)
    requires id in m
  {
    m[id].randomPos >= 0 && (id in ids || AddrRuns.IsTerrible(m[id], clock(m[id].randomPos)))
  }

  ghost predicate AllLooked(m: Infos, v: seq<int>, ids: seq<int>, clock: nat -> int, n: int) {
    forall j :: 0 <= j < n && j < |v| ==> v[j] in m && Looked(m, v[j], ids, clock)
  }

  lemma LooksSurvive(p: ParamsOk, s: AddrState.State, n: nat, pos: nat, ids: seq<int>, clock: nat -> int)
    requires AddrState.Core(p, s, {}, 0) && n <= pos < |s.random| && AllLooked(s.infos, s.random, ids, clock, n)
    requires AddrState.CanSwap(s, n, pos)
    ensures var t := AddrState.SwapRandom(s, n, pos);
      && t.random[n] in t.infos && t.infos[t.random[n]].randomPos == n
      && t.infos.Keys == s.infos.Keys && AddrState.Moved(s.infos, t.infos)
      && AllLooked(t.infos, t.random, ids + [t.random[n]], clock, n + 1)
      && (AddrRuns.IsTerrible(t.infos[t.random[n]], clock(n)) ==> AllLooked(t.infos, t.random, ids, clock, n + 1))
  {
    AddrState.SwapRandomKeeps(p, s, n, pos, {}, 0);
    AddrState.Unfold(p, s, {}, 0);
    var t := AddrState.SwapRandom(s, n, pos);
    forall j | 0 <= j < n
      ensures t.random[j] in t.infos && Looked(t.infos, t.random[j], ids, clock)
      ensures Looked(t.infos, t.random[j], ids + [t.random[n]], clock)
    {
      assert s.random[j] in s.infos && Looked(s.infos, s.random[j], ids, clock);
      assert t.random[j] == s.random[j] && t.infos[t.random[j]] == s.infos[s.random[j]];
    }
  }

  lemma EveryLook(p: ParamsOk, s: AddrState.State, ids: seq<int>, clock: nat -> int)
    requires AddrState.Core(p, s, {}, 0) && AllLooked(s.infos, s.random, ids, clock, |s.random|)
    ensures forall id :: id in s.infos ==> Looked(s.infos, id, ids, clock)
  {
    forall id | id in s.infos ensures Looked(s.infos, id, ids, clock) {
      AddrState.KnownPlace(p, s, {}, 0, id);
      assert s.random[s.infos[id].randomPos] == id;
    }
  }

  /** Distinct good entries from the first `n` places of the random order. */
  ghost predicate Sample(m: Infos, ids: seq<int>, addrs: seq<Service>, clock: nat -> int, n: int) {
    && |ids| == |addrs|
    && (forall i :: 0 <= i < |ids| ==>
          ids[i] in m && m[ids[i]].addr == addrs[i] && 0 <= m[ids[i]].randomPos < n
          && !AddrRuns.IsTerrible(m[ids[i]], clock(m[ids[i]].randomPos)))
    && (forall i, j :: 0 <= i < j < |ids| ==> ids[i] != ids[j])
  }

  /** Exchanging later places does not disturb a sample, and the entry now at place n is new to it. */
  lemma SampleSurvives(p: ParamsOk, s: AddrState.State, n: nat, pos: nat, ids: seq<int>, addrs: seq<Service>, clock: nat -> int)
    requires AddrState.Core(p, s, {}, 0) && n <= pos < |s.random| && Sample(s.infos, ids, addrs, clock, n)
    requires AddrState.CanSwap(s, n, pos)
    ensures var t := AddrState.SwapRandom(s, n, pos);
      && |t.random| == |s.random| && t.random[n] in t.infos && t.infos[t.random[n]].randomPos == n
      && Sample(t.infos, ids, addrs, clock, n + 1)
      && (!AddrRuns.IsTerrible(t.infos[t.random[n]], clock(n)) ==>
            Sample(t.infos, ids + [t.random[n]], addrs + [t.infos[t.random[n]].addr], clock, n + 1))
  {
    AddrState.Unfold(p, s, {}, 0);
    var t := AddrState.SwapRandom(s, n, pos);
    forall i | 0 <= i < |ids| ensures ids[i] != t.random[n] && t.infos[ids[i]] == s.infos[ids[i]] {
      assert s.infos[ids[i]].randomPos < n;
    }
    SampleGrows(s.infos, t.infos, ids, addrs, clock, n, t.random[n]);
  }

  lemma SampleGrows(m: Infos, m': Infos, ids: seq<int>, addrs: seq<Service>, clock: nat -> int, n: nat, id: int)
    requires Sample(m, ids, addrs, clock, n) && m.Keys == m'.Keys && id in m' && m'[id].randomPos == n
    requires forall i :: 0 <= i < |ids| ==> ids[i] != id && m'[ids[i]] == m[ids[i]]
    ensures Sample(m', ids, addrs, clock, n + 1)
    ensures !AddrRuns.IsTerrible(m'[id], clock(n)) ==> Sample(m', ids + [id], addrs + [m'[id].addr], clock, n + 1)
  {
  }

  /** The buckets below `n` that hold an entry. */
  ghost function BucketsBelow(p: ParamsOk, news: Table, id: int, a: Service, n: nat): set<nat>
    requires Shaped(news, p.newBuckets, p.bucketSize) && n <= p.newBuckets
  {
    set b: nat | b < n && news[b][Position(p, a, true, b)] == id
  }

  /** The new table without the entry in the buckets below `n`. */
  ghost function LeftBelow(p: ParamsOk, news: Table, id: int, a: Service, n: nat): (r: Table)
    requires Shaped(news, p.newBuckets, p.bucketSize) && n <= p.newBuckets
    ensures Shaped(r, p.newBuckets, p.bucketSize)
  {
    if n == 0 then news
    else
      var before := LeftBelow(p, news, id, a, n - 1);
      var pos := Position(p, a, true, n - 1);
      if before[n - 1][pos] == id then SetSlot(before, n - 1, pos, -1) else before
  }

  lemma {:induction false} LeftBelowIs(p: ParamsOk, news: Table, id: int, a: Service, n: nat)
    requires Shaped(news, p.newBuckets, p.bucketSize) && n <= p.newBuckets
    ensures var r := LeftBelow(p, news, id, a, n);
      && (forall b :: 0 <= b < n ==> r[b] == AddrState.ClearedRow(news[b], Position(p, a, true, b), id))
      && (forall b :: n <= b < p.newBuckets ==> r[b] == news[b])
  {
    if n > 0 {
      LeftBelowIs(p, news, id, a, n - 1);
    }
  }

  lemma LeftStep(p: ParamsOk, news: Table, id: int, a: Service, n: nat)
    requires Shaped(news, p.newBuckets, p.bucketSize) && n < p.newBuckets
    ensures var now, pos := LeftBelow(p, news, id, a, n), Position(p, a, true, n);
      && LeftBelow(p, news, id, a, n + 1) == (if now[n][pos] == id then SetSlot(now, n, pos, -1) else now)
      && |BucketsBelow(p, news, id, a, n + 1)| == |BucketsBelow(p, news, id, a, n)| + if now[n][pos] == id then 1 else 0
  {
    LeftBelowIs(p, news, id, a, n);
    BucketsBelowStep(p, news, id, a, n);
  }

  lemma AllBucketsLeft(p: ParamsOk, news: Table, id: int, a: Service)
    requires Shaped(news, p.newBuckets, p.bucketSize)
    ensures BucketsBelow(p, news, id, a, p.newBuckets) == Buckets(p, news, id, a)
    ensures LeftBelow(p, news, id, a, p.newBuckets) == AddrState.ClearedAll(p, news, id, a)
  {
    LeftBelowIs(p, news, id, a, p.newBuckets);
  }

  lemma BucketsBelowStep(p: ParamsOk, news: Table, id: int, a: Service, n: nat)
    requires Shaped(news, p.newBuckets, p.bucketSize) && n < p.newBuckets
    ensures |BucketsBelow(p, news, id, a, n + 1)| ==
            |BucketsBelow(p, news, id, a, n)| + if news[n][Position(p, a, true, n)] == id then 1 else 0
  {
    var before, after := BucketsBelow(p, news, id, a, n), BucketsBelow(p, news, id, a, n + 1);
    var hit: set<nat> := if news[n][Position(p, a, true, n)] == id then {n} else {};
    assert after == before + hit;
    assert before !! hit;
  }

  /** (n + start) % size for indices in range. */
  function Cyclic(n: nat, start: nat, size: nat): (b: nat)
    requires n < size && start < size
    ensures b < size && b == if n + start < size then n + start else n + start - size
  {
    ModWrap(n + start, size);
    (n + start) % size
  }

  lemma ModWrap(x: nat, size: nat)
    requires x < 2 * size
    ensures x % size == if x < size then x else x - size
  {
    var q, r := x / size, x % size;
    assert x == q * size + r;
    MulBounds(q, size);
  }

  lemma MulBounds(q: int, size: int)
    requires size >= 0
    ensures q >= 2 ==> q * size >= 2 * size
    ensures q < 0 ==> q * size <= -size
  {
    if q >= 2 {
      assert (q - 2) * size >= 0;
    } else if q < 0 {
      assert (-1 - q) * size >= 0;
    }
  }
}
