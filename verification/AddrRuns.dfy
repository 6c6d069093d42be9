/** Adding addresses, resolving collisions, and whole runs of the address manager. */
module AddrRuns {
  import opened AddrTables
  import opened AddrState
  import opened AddrOps

  const ADDRMAN_HORIZON := 30 * 24 * 60 * 60
  const ADDRMAN_RETRIES := 3
  const ADDRMAN_MAX_FAILURES := 10
  const ADDRMAN_MIN_FAIL := 7 * 24 * 60 * 60
  const ADDRMAN_REPLACEMENT := 4 * 60 * 60

  /** An address as announced by a peer. */
  datatype Announced = Announced(addr: Service, nTime: int, services: set<nat>)

  predicate IsTerrible(info: Info, now: int) {
    if info.lastTry != 0 && info.lastTry >= now - 60 then false
    else
      || info.nTime > now + 10 * 60
      || info.nTime == 0 || now - info.nTime > ADDRMAN_HORIZON
      || (info.lastSuccess == 0 && info.attempts >= ADDRMAN_RETRIES)
      || (now - info.lastSuccess > ADDRMAN_MIN_FAIL && info.attempts >= ADDRMAN_MAX_FAILURES)
  }

  // ----- Add -----------------------------------------------------------------------

  /** A time less a penalty, not below zero. */
  function Penalised(nTime: int, penalty: int): int { if nTime < penalty then 0 else nTime - penalty }

  function NewInfo(x: Announced, source: NetAddr, nTime: int, randomPos: int): Info {
    Info(x.addr, source, nTime, x.services, 0, 0, 0, 0, 0, false, randomPos)
  }

  /** Create, with the time penalty and the count that Add_ applies right after it. */
  function Create(s: State, x: Announced, source: NetAddr, penalty: int): State {
    s.(idCount := s.idCount + 1,
       infos := s.infos[s.idCount := NewInfo(x, source, Penalised(x.nTime, penalty), |s.random|)],
       addrs := s.addrs[x.addr.net := s.idCount],
       random := s.random + [s.idCount],
       nNew := s.nNew + 1)
  }

  lemma CreateKeeps(p: ParamsOk, s: State, x: Announced, source: NetAddr, penalty: int)
    requires Core(p, s, {}, 0) && x.addr.net !in s.addrs
    ensures Core(p, Create(s, x, source, penalty), {s.idCount}, 0)
  {
    CreatedTables(p, s, x, source, penalty);
    CreatedIndexes(p, s, x, source, penalty);
    Fold(p, Create(s, x, source, penalty), {s.idCount}, 0);
  }

  lemma CreatedTables(p: ParamsOk, s: State, x: Announced, source: NetAddr, penalty: int)
    requires Core(p, s, {}, 0)
    ensures var t := Create(s, x, source, penalty);
      NewOk(p, t.infos, t.news, {s.idCount}) && TriedOk(p, t.infos, t.tried) && CountsOk(t.infos, t.nTried, t.nNew, 0)
  {
    var info := NewInfo(x, source, Penalised(x.nTime, penalty), |s.random|);
    Unfold(p, s, {}, 0);
    CreateKeepsTables(p, s.infos, s.news, s.tried, {}, s.idCount, info);
    assert {} + {s.idCount} == {s.idCount};
    CreateCounts(s.infos, s.nTried, s.nNew, s.idCount, info);
  }

  lemma CreatedIndexes(p: ParamsOk, s: State, x: Announced, source: NetAddr, penalty: int)
    requires Core(p, s, {}, 0) && x.addr.net !in s.addrs
    ensures var t := Create(s, x, source, penalty);
      RandomOk(t.infos, t.random) && AddrOk(t.infos, t.addrs) && InfoOk(t.infos, t.idCount)
  {
    var info := NewInfo(x, source, Penalised(x.nTime, penalty), |s.random|);
    Unfold(p, s, {}, 0);
    CreateKeepsAddr(s.infos, s.addrs, s.idCount, info);
    PushKeepsRandom(s.infos, s.random, s.idCount, info);
  }

  /** The statistics Add_ refreshes on an entry it knows already. */
  function Refreshed(info: Info, x: Announced, penalty: int, now: int): Info {
    var interval := if now - x.nTime < 24 * 60 * 60 then 60 * 60 else 24 * 60 * 60;
    var timed :=
      if x.nTime != 0 && (info.nTime == 0 || info.nTime < x.nTime - interval - penalty)
      then info.(nTime := Penalised(x.nTime, penalty)) else info;
    timed.(services := timed.services + x.services)
  }

  /** Whether the announced entry may take over the slot of its bucket. */
  predicate TakesOver(s: State, id: int, holder: int, now: int)
    requires id in s.infos
  {
    || holder == -1
    || (holder in s.infos && IsTerrible(s.infos[holder], now))
    || (holder in s.infos && s.infos[holder].refCount > 1 && s.infos[id].refCount == 0)
  }

  /** One more reference for an entry, in an empty slot. */
  function Refer(p: ParamsOk, s: State, id: int, b: nat): State
    requires Shaped(s.news, p.newBuckets, p.bucketSize) && id in s.infos && b < p.newBuckets
  {
    var info := s.infos[id];
    s.(infos := s.infos[id := info.(refCount := info.refCount + 1)],
       news := SetSlot(s.news, b, Position(p, info.addr, true, b), id))
  }

  /** The last part of Add_: the entry tries to get the slot of one bucket. */
  ghost function Place(p: ParamsOk, s: State, id: int, b: nat, now: int): State
    requires Core(p, s, {id}, 0) && id in s.infos && !s.infos[id].inTried && b < p.newBuckets
  {
    var i := Position(p, s.infos[id].addr, true, b);
    var holder := s.news[b][i];
    if holder == id then s
    else if TakesOver(s, id, holder, now) then
      ClearNewKeeps(p, s, b, i, {id}, 0);
      HolderStays(s, ClearNew(s, b, i), b, i, id);
      Refer(p, ClearNew(s, b, i), id, b)
    else if s.infos[id].refCount == 0 then
      DeleteKeeps(p, s, id, {id}, 0);
      Delete(s, id)
    else s
  }

  lemma ReferKeeps(p: ParamsOk, s: State, id: int, b: nat)
    requires Core(p, s, {id}, 0) && id in s.infos && !s.infos[id].inTried && b < p.newBuckets
    requires s.infos[id].refCount < NEW_BUCKETS_PER_ADDRESS
    requires s.news[b][Position(p, s.infos[id].addr, true, b)] == -1
    ensures Core(p, Refer(p, s, id, b), {}, 0)
  {
    ReferredTable(p, s, id, b);
    CountKeeps(p, s, Refer(p, s, id, b), id, {id}, {}, 0, 0);
  }

  lemma ReferredTable(p: ParamsOk, s: State, id: int, b: nat)
    requires Core(p, s, {id}, 0) && id in s.infos && !s.infos[id].inTried && b < p.newBuckets
    requires s.infos[id].refCount < NEW_BUCKETS_PER_ADDRESS
    requires s.news[b][Position(p, s.infos[id].addr, true, b)] == -1
    ensures NewOk(p, Refer(p, s, id, b).infos, Refer(p, s, id, b).news, {})
  {
    Unfold(p, s, {id}, 0);
    FilledAlone(p, s.infos, s.news, id, b, s.infos[id].(refCount := s.infos[id].refCount + 1),
                SetSlot(s.news, b, Position(p, s.infos[id].addr, true, b), id));
  }

  lemma FilledAlone(p: ParamsOk, m: Infos, news: Table, id: int, b: nat, info: Info, filled: Table)
    requires NewOk(p, m, news, {id}) && b < p.newBuckets && -1 !in m
    requires id in m && !m[id].inTried && m[id].refCount < NEW_BUCKETS_PER_ADDRESS
    requires info == m[id].(refCount := m[id].refCount + 1) && news[b][Position(p, m[id].addr, true, b)] == -1
    requires filled == SetSlot(news, b, Position(p, m[id].addr, true, b), id)
    ensures NewOk(p, m[id := info], filled, {})
  {
    FillSlotKeepsNew(p, m, news, {id}, id, b);
    assert {id} - {id} == {};
  }

  /** Placing an entry leaves no entry without a slot; only the slot asked for can change. */
  lemma PlaceKeeps(p: ParamsOk, s: State, id: int, b: nat, now: int)
    requires Core(p, s, {id}, 0) && id in s.infos && !s.infos[id].inTried && b < p.newBuckets
    requires s.infos[id].refCount < NEW_BUCKETS_PER_ADDRESS
    ensures var t := Place(p, s, id, b, now);
      var i := Position(p, s.infos[id].addr, true, b);
      && Core(p, t, {}, 0)
      && t.tried == s.tried && t.idCount == s.idCount && t.collisions == s.collisions && t.lastGood == s.lastGood
      && t.news == (if s.news[b][i] == id || TakesOver(s, id, s.news[b][i], now) then SetSlot(s.news, b, i, id) else s.news)
      && Kept(s.infos, t.infos)
  {
    var i := Position(p, s.infos[id].addr, true, b);
    var holder := s.news[b][i];
    if holder == id {
      RefsOf(p, s, {id}, 0, id);
      assert b in Buckets(p, s.news, id, s.infos[id].addr);
      assert {} + {id} == {id};
      TightenCore(p, s, {}, 0, id);
      assert s.news[b][i := id] == s.news[b];
    } else if TakesOver(s, id, holder, now) {
      PlaceTakesOver(p, s, id, b);
    } else if s.infos[id].refCount == 0 {
      DeleteKeeps(p, s, id, {id}, 0);
      assert {id} - {id} == {};
    } else {
      RefsOf(p, s, {id}, 0, id);
      assert {} + {id} == {id};
      TightenCore(p, s, {}, 0, id);
    }
  }

  lemma PlaceTakesOver(p: ParamsOk, s: State, id: int, b: nat)
    requires Core(p, s, {id}, 0) && id in s.infos && !s.infos[id].inTried && b < p.newBuckets
    requires s.infos[id].refCount < NEW_BUCKETS_PER_ADDRESS
    requires s.news[b][Position(p, s.infos[id].addr, true, b)] != id
    ensures var i := Position(p, s.infos[id].addr, true, b);
      && CanClearNew(s, b, i)
      && var u := ClearNew(s, b, i);
      && id in u.infos && Shaped(u.news, p.newBuckets, p.bucketSize)
      && var t := Refer(p, u, id, b);
      && Core(p, t, {}, 0)
      && t.tried == s.tried && t.idCount == s.idCount && t.collisions == s.collisions && t.lastGood == s.lastGood
      && t.news == SetSlot(s.news, b, i, id)
      && Kept(s.infos, t.infos)
  {
    var i := Position(p, s.infos[id].addr, true, b);
    ClearNewKeeps(p, s, b, i, {id}, 0);
    var u := ClearNew(s, b, i);
    ClearKeepsStats(s, u, b, i);
    HolderStays(s, u, b, i, id);
    ReferKeeps(p, u, id, b);
    SetSlotTwice(s.news, b, i, -1, id);
  }

  /** Add_ on an address it knows; the clock is read twice, and `lucky` is the outcome of the stochastic test for a
      further reference. */
  ghost function AddKnown(p: ParamsOk, s: State, x: Announced, source: NetAddr, penalty: int, now: int, later: int, lucky: bool): State
    requires Valid(p, s) && x.addr.net in s.addrs
  {
    EntryOf(p, s, {}, 0, x.addr.net);
    var id := s.addrs[x.addr.net];
    RefreshValid(p, s, id, x, penalty, now);
    var info := Refreshed(s.infos[id], x, penalty, now);
    var t := Touch(s, id, info);
    if x.nTime == 0 || (info.nTime != 0 && x.nTime <= info.nTime) then t
    else if info.inTried then t
    else if info.refCount == NEW_BUCKETS_PER_ADDRESS then t
    else if info.refCount > 0 && !lucky then t
    else Place(p, t, id, NewBucket(p, info.addr, source), later)
  }

  ghost function AddUnknown(p: ParamsOk, s: State, x: Announced, source: NetAddr, penalty: int, later: int): State
    requires Valid(p, s) && x.addr.net !in s.addrs
  {
    CreateKeeps(p, s, x, source, penalty);
    Place(p, Create(s, x, source, penalty), s.idCount, NewBucket(p, x.addr, source), later)
  }

  ghost function Add(p: ParamsOk, s: State, x: Announced, source: NetAddr, nTimePenalty: int, now: int, later: int, lucky: bool): (State, bool)
    requires Valid(p, s)
  {
    var penalty := if x.addr.net == source then 0 else nTimePenalty;
    if !p.isRoutable(x.addr.net) then (s, false)
    else if x.addr.net in s.addrs then (AddKnown(p, s, x, source, penalty, now, later, lucky), false)
    else (AddUnknown(p, s, x, source, penalty, later), true)
  }

  lemma RefreshValid(p: ParamsOk, s: State, id: int, x: Announced, penalty: int, now: int)
    requires Valid(p, s) && id in s.infos
    ensures Valid(p, Touch(s, id, Refreshed(s.infos[id], x, penalty, now)))
    ensures Core(p, Touch(s, id, Refreshed(s.infos[id], x, penalty, now)), {id}, 0)
  {
    DatesOf(p, s, {}, 0, id);
    TouchKeeps(p, s, id, Refreshed(s.infos[id], x, penalty, now));
    LoosenCore(p, Touch(s, id, Refreshed(s.infos[id], x, penalty, now)), {}, {id}, 0);
  }

  /** Add_ keeps the tables in step, never touches the tried table, and reports a new entry
      exactly for a routable address it did not know. */
  lemma AddValid(p: ParamsOk, s: State, x: Announced, source: NetAddr, nTimePenalty: int, now: int, later: int, lucky: bool)
    requires Valid(p, s)
    ensures var (t, isNew) := Add(p, s, x, source, nTimePenalty, now, later, lucky);
      && Valid(p, t)
      && t.tried == s.tried && t.collisions == s.collisions && t.lastGood == s.lastGood
      && isNew == (p.isRoutable(x.addr.net) && x.addr.net !in s.addrs)
      && t.idCount == s.idCount + if isNew then 1 else 0
  {
    var penalty := if x.addr.net == source then 0 else nTimePenalty;
    if p.isRoutable(x.addr.net) {
      if x.addr.net in s.addrs {
        RefreshAndPlaceValid(p, s, x, source, penalty, now, later);
      } else {
        CreateKeeps(p, s, x, source, penalty);
        PlaceValid(p, s, Create(s, x, source, penalty), s.idCount, NewBucket(p, x.addr, source), later);
      }
    }
  }

  lemma RefreshAndPlaceValid(p: ParamsOk, s: State, x: Announced, source: NetAddr, penalty: int, now: int, later: int)
    requires Valid(p, s) && x.addr.net in s.addrs
    ensures var id := s.addrs[x.addr.net];
      && id in s.infos
      && var t := Touch(s, id, Refreshed(s.infos[id], x, penalty, now));
      && Valid(p, t) && Core(p, t, {id}, 0)
      && t.tried == s.tried && t.collisions == s.collisions && t.lastGood == s.lastGood && t.idCount == s.idCount
      && (!t.infos[id].inTried && t.infos[id].refCount != NEW_BUCKETS_PER_ADDRESS ==>
            var u := Place(p, t, id, NewBucket(p, t.infos[id].addr, source), later);
            && Valid(p, u) && u.tried == s.tried && u.collisions == s.collisions && u.lastGood == s.lastGood && u.idCount == s.idCount)
  {
    EntryOf(p, s, {}, 0, x.addr.net);
    var id := s.addrs[x.addr.net];
    RefreshValid(p, s, id, x, penalty, now);
    var t := Touch(s, id, Refreshed(s.infos[id], x, penalty, now));
    RefsOf(p, t, {}, 0, id);
    if !t.infos[id].inTried && t.infos[id].refCount != NEW_BUCKETS_PER_ADDRESS {
      PlaceValid(p, s, t, id, NewBucket(p, t.infos[id].addr, source), later);
    }
  }

  lemma PlaceValid(p: ParamsOk, s: State, t: State, id: int, b: nat, now: int)
    requires Valid(p, s) && Core(p, t, {id}, 0) && id in t.infos && !t.infos[id].inTried && b < p.newBuckets
    requires t.infos[id].refCount < NEW_BUCKETS_PER_ADDRESS
    requires t.tried == s.tried && t.collisions == s.collisions && t.idCount >= s.idCount && t.lastGood == s.lastGood
    requires forall k :: k in t.infos ==> k >= s.idCount || (k in s.infos && t.infos[k].addr == s.infos[k].addr)
    ensures var u := Place(p, t, id, b, now);
      && Valid(p, u) && u.tried == s.tried && u.collisions == s.collisions && u.lastGood == s.lastGood && u.idCount == t.idCount
  {
    PlaceKeeps(p, t, id, b, now);
    var u := Place(p, t, id, b, now);
    CollisionsCarry(p, s.infos, s.tried, u.infos, u.tried, s.collisions, s.idCount, u.idCount);
  }

  // ----- collisions -------------------------------------------------------------------

  /** The holder of an occupied tried slot is a known, tried entry. */
  lemma TriedHolderKnown(p: ParamsOk, s: State, a: Service)
    requires Core(p, s, {}, 0)
    ensures TriedSlot(p, s, a) != -1 ==> TriedSlot(p, s, a) in s.infos && s.infos[TriedSlot(p, s, a)].inTried
  {
    if TriedSlot(p, s, a) != -1 {
      TriedHolder(p, s, {}, 0, TriedBucket(p, a), TriedPosition(p, a));
    }
  }

  /** A known entry in the collision set waits for an occupied slot whose holder is known, so
      looking the holder up never creates an entry. */
  lemma CollisionHolderKnown(p: ParamsOk, s: State, id: int)
    requires Valid(p, s) && id in s.collisions && id in s.infos
    ensures TriedSlot(p, s, s.infos[id].addr) != -1 && TriedSlot(p, s, s.infos[id].addr) in s.infos
  {
    TriedHolderKnown(p, s, s.infos[id].addr);
  }

  function Erase(s: State, id: int): State { s.(collisions := s.collisions - {id}) }

  lemma EraseKeeps(p: ParamsOk, s: State, id: int)
    requires Valid(p, s)
    ensures Valid(p, Erase(s, id))
  {
    OthersKeep(p, s, Erase(s, id), {}, 0);
    assert |s.collisions - {id}| <= |s.collisions|;
  }

  /** What ResolveCollisions_ does with one member of the collision set. */
  datatype Verdict = Keep | Drop | Swap

  /** The clock as it is read for one member: against the incumbent's last success, twice against
      its last attempt, and as the time of the swap. */
  datatype Readings = Readings(success: int, attempt: int, patience: int, stamp: int)

  ghost predicate Ticking(clock: nat -> Readings) { forall i: nat :: clock(i).stamp > 0 }

  ghost function Judge(p: ParamsOk, s: State, id: int, at: Readings): Verdict
    requires Valid(p, s) && id in s.collisions
  {
    if id !in s.infos then Drop
    else if !p.isValid(s.infos[id].addr.net) then Drop
    else
      CollisionHolderKnown(p, s, id);
      var incumbent := s.infos[TriedSlot(p, s, s.infos[id].addr)];
      if at.success - incumbent.lastSuccess < ADDRMAN_REPLACEMENT then Drop
      else if at.attempt - incumbent.lastTry < ADDRMAN_REPLACEMENT && at.patience - incumbent.lastTry > 60 then Swap
      else Keep
  }

  ghost function ResolveOne(p: ParamsOk, s: State, id: int, at: Readings): State
    requires Valid(p, s) && id in s.collisions && at.stamp > 0
  {
    match Judge(p, s, id, at)
    case Keep => s
    case Drop => Erase(s, id)
    case Swap => Erase(Good(p, s, s.infos[id].addr, false, at.stamp), id)
  }

  lemma ResolveOneValid(p: ParamsOk, s: State, id: int, at: Readings)
    requires Valid(p, s) && id in s.collisions && at.stamp > 0
    ensures var t := ResolveOne(p, s, id, at);
      && Valid(p, t) && StillOccupied(s.tried, t.tried)
      && t.collisions == if Judge(p, s, id, at) == Keep then s.collisions else s.collisions - {id}
  {
    match Judge(p, s, id, at)
    case Keep =>
    case Drop => EraseKeeps(p, s, id);
    case Swap =>
      GoodValid(p, s, s.infos[id].addr, false, at.stamp);
      GoodKeepsCollisions(p, s, s.infos[id].addr, at.stamp);
      EraseKeeps(p, Good(p, s, s.infos[id].addr, false, at.stamp), id);
  }

  /** ResolveCollisions_ over the collision set in some order. */
  ghost function ResolveAll(p: ParamsOk, s: State, order: seq<int>, clock: nat -> Readings): State
    requires Ticking(clock)
  {
    if order == [] then s
    else
      var id := order[|order| - 1];
      var t := ResolveAll(p, s, order[..|order| - 1], clock);
      if Valid(p, t) && id in t.collisions then ResolveOne(p, t, id, clock(|order| - 1)) else t
  }

  lemma ResolveNext(p: ParamsOk, s: State, order: seq<int>, id: int, clock: nat -> Readings)
    requires Ticking(clock)
    ensures var t := ResolveAll(p, s, order, clock);
      ResolveAll(p, s, order + [id], clock) ==
        if Valid(p, t) && id in t.collisions then ResolveOne(p, t, id, clock(|order|)) else t
  {
    assert (order + [id])[..|order|] == order;
  }

  /** Without the test before eviction Good_ leaves the collision set alone. */
  lemma GoodKeepsCollisions(p: ParamsOk, s: State, addr: Service, nTime: int)
    requires Valid(p, s) && nTime > 0
    ensures Good(p, s, addr, false, nTime).collisions == s.collisions
  {
    var id := Lookup(s, addr);
    if id != -1 {
      MarkGoodValid(p, s, id, nTime);
      var t := MarkGood(s, id, nTime);
      if !t.infos[id].inTried {
        MakeTriedKeeps(p, t, id);
      }
    }
  }

  // ----- whole runs --------------------------------------------------------------------

  datatype Op =
    | AddOp(x: Announced, source: NetAddr, penalty: int, now: int, later: int, lucky: bool)
    | GoodOp(addr: Service, testBeforeEvict: bool, nTime: int)
    | AttemptOp(addr: Service, countFailure: bool, nTime: int)
    | ConnectedOp(addr: Service, nTime: int)
    | SetServicesOp(addr: Service, services: set<nat>)
    | ResolveOp(id: int, at: Readings)  // one member of the collision set
    | ForgetOp(id: int)                 // SelectTriedCollision_ on an unknown id
    | ShuffleOp(i: nat, j: nat)         // one exchange made by GetAddr_

  /** Timestamps are those of a running clock. */
  predicate Sensible(op: Op) {
    match op
    case GoodOp(_, _, nTime) => nTime > 0
    case AttemptOp(_, _, nTime) => nTime >= 0
    case ConnectedOp(_, nTime) => nTime >= 0
    case ResolveOp(_, at) => at.stamp > 0
    case _ => true
  }

  ghost predicate Enabled(p: ParamsOk, s: State, op: Op) {
    && Sensible(op)
    && (op.ResolveOp? ==> op.id in s.collisions)
    && (op.ForgetOp? ==> op.id in s.collisions && op.id !in s.infos)
    && (op.ShuffleOp? ==> op.i < |s.random| && op.j < |s.random|)
  }

  ghost function Step(p: ParamsOk, s: State, op: Op): State
    requires Valid(p, s) && Enabled(p, s, op)
  {
    match op
    case AddOp(x, source, penalty, now, later, lucky) => Add(p, s, x, source, penalty, now, later, lucky).0
    case GoodOp(addr, test, nTime) => Good(p, s, addr, test, nTime)
    case AttemptOp(addr, count, nTime) => Attempt(s, addr, count, nTime)
    case ConnectedOp(addr, nTime) => Connected(s, addr, nTime)
    case SetServicesOp(addr, services) => SetServices(s, addr, services)
    case ResolveOp(id, at) => ResolveOne(p, s, id, at)
    case ForgetOp(id) => Erase(s, id)
    case ShuffleOp(i, j) => SwapRandomKeeps(p, s, i, j, {}, 0); SwapRandom(s, i, j)
  }

  lemma StepValid(p: ParamsOk, s: State, op: Op)
    requires Valid(p, s) && Enabled(p, s, op)
    ensures Valid(p, Step(p, s, op)) && StillOccupied(s.tried, Step(p, s, op).tried)
  {
    match op
    case AddOp(x, source, penalty, now, later, lucky) => AddValid(p, s, x, source, penalty, now, later, lucky);
    case GoodOp(addr, test, nTime) => GoodValid(p, s, addr, test, nTime);
    case AttemptOp(addr, count, nTime) => AttemptValid(p, s, addr, count, nTime);
    case ConnectedOp(addr, nTime) => ConnectedValid(p, s, addr, nTime);
    case SetServicesOp(addr, services) => SetServicesValid(p, s, addr, services);
    case ResolveOp(id, at) => ResolveOneValid(p, s, id, at);
    case ForgetOp(id) => EraseKeeps(p, s, id);
    case ShuffleOp(i, j) => ShuffleValid(p, s, i, j);
  }

  lemma ShuffleValid(p: ParamsOk, s: State, i: nat, j: nat)
    requires Valid(p, s) && i < |s.random| && j < |s.random|
    ensures CanSwap(s, i, j) && Valid(p, SwapRandom(s, i, j))
  {
    SwapRandomKeeps(p, s, i, j, {}, 0);
    var t := SwapRandom(s, i, j);
    CollisionsCarry(p, s.infos, s.tried, t.infos, t.tried, s.collisions, s.idCount, t.idCount);
  }

  ghost predicate IsRun(p: ParamsOk, states: seq<State>, ops: seq<Op>) {
    && |states| == |ops| + 1
    && states[0] == Fresh(p)
    && forall i :: 0 <= i < |ops| ==> Follows(p, states[i], ops[i], states[i + 1])
  }

  /** Operations are specified on consistent states; that no other is met is the theorem. */
  ghost predicate Follows(p: ParamsOk, s: State, op: Op, t: State) {
    Valid(p, s) ==> Enabled(p, s, op) && t == Step(p, s, op)
  }

  /** In every run from a fresh object every state passes the consistency check. */
  lemma {:induction false} RunValid(p: ParamsOk, states: seq<State>, ops: seq<Op>, k: nat)
    requires IsRun(p, states, ops) && k <= |ops|
    ensures Valid(p, states[k])
  {
    if k == 0 {
      FreshValid(p);
    } else {
      RunValid(p, states, ops, k - 1);
      assert Follows(p, states[k - 1], ops[k - 1], states[k]);
      StepValid(p, states[k - 1], ops[k - 1]);
    }
  }

  /** A tried slot that was ever occupied is occupied ever after. */
  lemma {:induction false} TriedSlotsStayOccupied(p: ParamsOk, states: seq<State>, ops: seq<Op>, j: nat, k: nat)
    requires IsRun(p, states, ops) && j <= k <= |ops|
    ensures StillOccupied(states[j].tried, states[k].tried)
  {
    if j < k {
      TriedSlotsStayOccupied(p, states, ops, j, k - 1);
      RunValid(p, states, ops, k - 1);
      assert Follows(p, states[k - 1], ops[k - 1], states[k]);
      StepValid(p, states[k - 1], ops[k - 1]);
    }
  }

  // ----- Select ---------------------------------------------------------------------------

  lemma Member<T>(xs: set<T>) returns (x: T)
    requires |xs| > 0
    ensures x in xs
  {
    x :| x in xs;
  }

  /** Select_ probes slots until it meets an occupied one: there is one in the table it
      chose, and what it holds is a known entry of that table. */
  lemma SelectFindsEntry(p: ParamsOk, s: State, fromTried: bool) returns (b: nat, i: nat)
    requires Valid(p, s) && (if fromTried then s.nTried > 0 else s.nNew > 0)
    ensures var t := if fromTried then s.tried else s.news;
      && InTable(t, b, i) && t[b][i] != -1
      && t[b][i] in s.infos && s.infos[t[b][i]].inTried == fromTried
  {
    Unfold(p, s, {}, 0);
    if fromTried {
      var id := Member(TriedIds(s.infos));
      b, i := TriedBucket(p, s.infos[id].addr), TriedPosition(p, s.infos[id].addr);
    } else {
      var id := Member(NewIds(s.infos));
      UntriedHasBucket(p, s, id);
      b := Member(Buckets(p, s.news, id, s.infos[id].addr));
      i := Position(p, s.infos[id].addr, true, b);
    }
  }
}
