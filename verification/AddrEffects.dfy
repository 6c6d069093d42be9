/** What Good_ and Add_ of the address manager do, told by tables and entries before and after. */
module AddrEffects {
  import opened AddrTables
  import opened AddrState
  import opened AddrOps
  import opened AddrRuns

  // ----- telling before from after --------------------------------------------------------------

  /** Exactly the slot (b, i) was written. */
  ghost predicate OnlySlot(t: Table, t': Table, b: nat, i: nat, id: int) {
    && InTable(t, b, i) && |t'| == |t| && (forall c :: 0 <= c < |t| ==> |t'[c]| == |t[c]|)
    && forall c, j :: 0 <= c < |t| && 0 <= j < |t[c]| ==> t'[c][j] == if c == b && j == i then id else t[c][j]
  }

  /** All entries but `id` were there before and have kept their statistics. */
  ghost predicate OthersKept(s: State, t: State, id: int) {
    forall k :: k in t.infos && k != id ==> k in s.infos && SameStats(s.infos[k], t.infos[k])
  }

  /** The holder of a slot is gone if that was its last reference. */
  ghost function Forgotten(s: State, holder: int): set<int> {
    if holder in s.infos && s.infos[holder].refCount == 1 then {holder} else {}
  }

  ghost predicate SameTables(s: State, t: State) {
    t.tried == s.tried && t.news == s.news && t.infos.Keys == s.infos.Keys
  }

  // ----- Good_ ------------------------------------------------------------------------------------

  /** The address is known with this port. */
  ghost predicate Exactly(s: State, addr: Service) {
    addr.net in s.addrs && s.addrs[addr.net] in s.infos && s.infos[s.addrs[addr.net]].addr == addr
  }

  ghost predicate GoodDone(p: ParamsOk, s: State, t: State, addr: Service, testBeforeEvict: bool, nTime: int)
    requires Shaped(s.tried, p.triedBuckets, p.bucketSize)
  {
    if !Exactly(s, addr) then t == s.(lastGood := nTime)
    else
      var id := s.addrs[addr.net];
      var slot := s.tried[TriedBucket(p, addr)][TriedPosition(p, addr)];
      && t.lastGood == nTime && t.idCount == s.idCount
      && Marked(s, t, id, nTime) && OthersKept(s, t, id)
      && if s.infos[id].inTried then SameTables(s, t) && t.collisions == s.collisions
         else if testBeforeEvict && slot != -1 then
           SameTables(s, t) && t.collisions == if |s.collisions| < 10 then s.collisions + {id} else s.collisions
         else NowTried(p, s, t, id, slot) && t.collisions == s.collisions
  }

  /** A success was noted for the entry, whose other statistics stay. */
  ghost predicate Marked(s: State, t: State, id: int, nTime: int) {
    && id in s.infos && id in t.infos
    && t.infos[id].lastSuccess == t.infos[id].lastTry == nTime && t.infos[id].attempts == 0
    && SameStats(s.infos[id].(lastSuccess := nTime, lastTry := nTime, attempts := 0), t.infos[id])
  }

  /** The entry has moved from all its new slots to its tried slot; the incumbent e, if there was one, is in
      its home slot of the new table, whose holder may be gone. */
  ghost predicate NowTried(p: ParamsOk, s: State, t: State, id: int, e: int) {
    && id in s.infos && id in t.infos && t.infos[id].inTried && t.infos[id].refCount == 0
    && OnlySlot(s.tried, t.tried, TriedBucket(p, s.infos[id].addr), TriedPosition(p, s.infos[id].addr), id)
    && |t.news| == |s.news| && (forall b :: 0 <= b < |s.news| ==> |t.news[b]| == |s.news[b]|)
    && if e == -1 then
         && t.infos.Keys == s.infos.Keys
         && forall b, i :: 0 <= b < |s.news| && 0 <= i < |s.news[b]| ==> t.news[b][i] == if s.news[b][i] == id then -1 else s.news[b][i]
       else
         && e in s.infos && SentBack(p, s, t, id, e)
  }

  ghost predicate SentBack(p: ParamsOk, s: State, t: State, id: int, e: int)
    requires e in s.infos && |t.news| == |s.news| && forall b :: 0 <= b < |s.news| ==> |t.news[b]| == |s.news[b]|
  {
    var home := NewBucket(p, s.infos[e].addr, s.infos[e].source);
    var pos := Position(p, s.infos[e].addr, true, home);
    && e in t.infos && !t.infos[e].inTried && t.infos[e].refCount == 1
    && InTable(s.news, home, pos) && t.infos.Keys == s.infos.Keys - (Forgotten(s, s.news[home][pos]) - {id})
    && forall b, i :: 0 <= b < |s.news| && 0 <= i < |s.news[b]| ==>
         t.news[b][i] == if b == home && i == pos then e else if s.news[b][i] == id then -1 else s.news[b][i]
  }

  /** Good_ does this. */
  lemma GoodEffect(p: ParamsOk, s: State, addr: Service, testBeforeEvict: bool, nTime: int)
    requires Valid(p, s) && nTime > 0
    ensures GoodDone(p, s, Good(p, s, addr, testBeforeEvict, nTime), addr, testBeforeEvict, nTime)
  {
    var id := Lookup(s, addr);
    if id != -1 {
      MarkGoodValid(p, s, id, nTime);
      var t := MarkGood(s, id, nTime);
      if !t.infos[id].inTried {
        UntriedHasBucket(p, t, id);
        if !(testBeforeEvict && TriedSlot(p, t, addr) != -1) {
          MoveEffect(p, t, id);
          MarkedMove(p, s, t, MakeTried(p, t, id), id, nTime);
        }
      }
    } else if Exactly(s, addr) {
      DatesOf(p, s, {}, 0, s.addrs[addr.net]);
    }
  }

  /** A note on one entry does not change what its move does. */
  lemma MarkedMove(p: ParamsOk, s: State, t: State, u: State, id: int, nTime: int)
    requires id in s.infos && t == MarkGood(s, id, nTime) && id in u.infos
    requires Kept(t.infos, u.infos) && Shaped(s.tried, p.triedBuckets, p.bucketSize)
    requires NowTried(p, t, u, id, TriedSlot(p, t, s.infos[id].addr)) && TriedSlot(p, s, s.infos[id].addr) != id
    ensures Marked(s, u, id, nTime) && OthersKept(s, u, id)
    ensures NowTried(p, s, u, id, TriedSlot(p, s, s.infos[id].addr))
  {
    assert SameStats(t.infos[id], u.infos[id]);
    assert t.infos.Keys == s.infos.Keys;
  }

  lemma MoveEffect(p: ParamsOk, s: State, id: int)
    requires Core(p, s, {}, 0) && id in s.infos && !s.infos[id].inTried && s.infos[id].lastSuccess != 0
    ensures var t := MakeTried(p, s, id);
      && NowTried(p, s, t, id, TriedSlot(p, s, s.infos[id].addr)) && Kept(s.infos, t.infos)
      && t.idCount == s.idCount && t.collisions == s.collisions && t.lastGood == s.lastGood
    ensures TriedSlot(p, s, s.infos[id].addr) != id
  {
    var e := TriedSlot(p, s, s.infos[id].addr);
    var t := MakeTried(p, s, id);
    MakeTriedKeeps(p, s, id);
    RefsOf(p, t, {}, 0, id);
    DatesOf(p, s, {}, 0, id);
    GoneEverywhere(p, s, id);
    if e == -1 {
      LeaveNewKeeps(p, s, id);
    } else {
      TriedHolder(p, s, {}, 0, TriedBucket(p, s.infos[id].addr), TriedPosition(p, s.infos[id].addr));
      SentHome(p, s, t, id, e);
      KeysAfterMove(p, s, id, e);
    }
  }

  /** Every slot of an entry is at the position that is looked at. */
  lemma GoneEverywhere(p: ParamsOk, s: State, id: int)
    requires Core(p, s, {}, 0) && id in s.infos && id != -1
    ensures forall b, i :: 0 <= b < |s.news| && 0 <= i < |s.news[b]| ==>
      ClearedAll(p, s.news, id, s.infos[id].addr)[b][i] == if s.news[b][i] == id then -1 else s.news[b][i]
  {
    Unfold(p, s, {}, 0);
  }

  /** The former incumbent is an entry of the new table with one reference. */
  lemma SentHome(p: ParamsOk, s: State, t: State, id: int, e: int)
    requires Core(p, s, {}, 0) && Core(p, t, {}, 0) && id in s.infos && !s.infos[id].inTried
    requires e in s.infos && s.infos[e].inTried && TriedSlot(p, s, s.infos[id].addr) == e && t.news == NewsAfterMove(p, s, id)
    requires Kept(s.infos, t.infos)
    ensures e in t.infos && !t.infos[e].inTried && t.infos[e].refCount == 1
  {
    var home, pos := HomeBucket(p, s.infos[e]), HomePosition(p, s.infos[e]);
    DatesOf(p, s, {}, 0, e);
    NewHolders(p, s, {}, 0);
    assert t.news[home][pos] == e;
    NewHolders(p, t, {}, 0);
    assert SameStats(s.infos[e], t.infos[e]);
    RefsOf(p, t, {}, 0, e);
    assert Buckets(p, t.news, e, s.infos[e].addr) == {home};
  }

  lemma KeysAfterMove(p: ParamsOk, s: State, id: int, e: int)
    requires Core(p, s, {}, 0) && id in s.infos && !s.infos[id].inTried
    requires e in s.infos && s.infos[e].inTried && TriedSlot(p, s, s.infos[id].addr) == e != -1
    ensures var home, pos := HomeBucket(p, s.infos[e]), HomePosition(p, s.infos[e]);
      MakeTried(p, s, id).infos.Keys == s.infos.Keys - (Forgotten(s, s.news[home][pos]) - {id})
  {
    LeaveNewKeeps(p, s, id);
    var l := LeaveNew(p, s, id);
    EvictKeeps(p, l, e, id);
    KeysAfterEvict(p, s, l, id, e);
    MoveIsEvict(p, s, l, id, e);
  }

  lemma MoveIsEvict(p: ParamsOk, s: State, l: State, id: int, e: int)
    requires Core(p, s, {}, 0) && id in s.infos && !s.infos[id].inTried && l == LeaveNew(p, s, id)
    requires TriedSlot(p, s, s.infos[id].addr) == e != -1 && CanEvict(p, l, e) && id in Evict(p, l, e).infos
    ensures MakeTried(p, s, id).infos.Keys == Evict(p, l, e).infos.Keys
  {
  }

  lemma KeysAfterEvict(p: ParamsOk, s: State, l: State, id: int, e: int)
    requires Core(p, s, {}, 0) && id in s.infos && !s.infos[id].inTried && l == LeaveNew(p, s, id) && Core(p, l, {id}, 1)
    requires l.infos == s.infos[id := s.infos[id].(refCount := 0)] && CanEvict(p, l, e)
    requires e in s.infos && s.infos[e].inTried && e in Evict(p, l, e).infos
    ensures var home, pos := HomeBucket(p, s.infos[e]), HomePosition(p, s.infos[e]);
      Evict(p, l, e).infos.Keys == s.infos.Keys - (Forgotten(s, s.news[home][pos]) - {id})
  {
    var home, pos := HomeBucket(p, s.infos[e]), HomePosition(p, s.infos[e]);
    ClearedKeys(p, l, e, id);
    HomeHolder(p, s, id, home, pos);
    EvictedKeys(p, s, l, id, e);
  }

  lemma HomeHolder(p: ParamsOk, s: State, id: int, b: nat, i: nat)
    requires Core(p, s, {}, 0) && id in s.infos && b < p.newBuckets && i < p.bucketSize
    ensures LeaveNew(p, s, id).news[b][i] == (if s.news[b][i] == id then -1 else s.news[b][i])
    ensures s.news[b][i] != -1 ==> s.news[b][i] in s.infos && !s.infos[s.news[b][i]].inTried
    ensures -1 !in s.infos && InTable(s.news, b, i)
  {
    Unfold(p, s, {}, 0);
    DatesOf(p, s, {}, 0, id);
    GoneEverywhere(p, s, id);
  }

  lemma ClearedKeys(p: ParamsOk, l: State, e: int, id: int)
    requires Core(p, l, {id}, 1) && id in l.infos && !l.infos[id].inTried && l.infos[id].refCount == 0
    requires e in l.infos && l.infos[e].inTried
    ensures var home, pos := HomeBucket(p, l.infos[e]), HomePosition(p, l.infos[e]);
      var t := LeaveTriedSlot(p, l, e);
      && CanClearNew(t, home, pos)
      && ClearNew(t, home, pos).infos.Keys == t.infos.Keys -
           (if t.news[home][pos] != -1 && t.infos[t.news[home][pos]].refCount == 1 then {t.news[home][pos]} else {})
      && t.news[home][pos] != e
  {
    EvictLeaves(p, l, e, id);
    ClearNewKeeps(p, LeaveTriedSlot(p, l, e), HomeBucket(p, l.infos[e]), HomePosition(p, l.infos[e]), {id} + {e}, 2);
  }

  lemma EvictedKeys(p: ParamsOk, s: State, l: State, id: int, e: int)
    requires id in s.infos && !s.infos[id].inTried && e in s.infos && s.infos[e].inTried && CanEvict(p, l, e)
    requires l.infos == s.infos[id := s.infos[id].(refCount := 0)] && -1 !in s.infos
    requires var home, pos := HomeBucket(p, s.infos[e]), HomePosition(p, s.infos[e]);
      var t := LeaveTriedSlot(p, l, e);
      && InTable(s.news, home, pos) && (s.news[home][pos] != -1 ==> s.news[home][pos] in s.infos)
      && CanClearNew(t, home, pos) && t.news[home][pos] != e
      && t.news[home][pos] == (if s.news[home][pos] == id then -1 else s.news[home][pos])
      && ClearNew(t, home, pos).infos.Keys == t.infos.Keys -
           (if t.news[home][pos] != -1 && t.infos[t.news[home][pos]].refCount == 1 then {t.news[home][pos]} else {})
    requires e in Evict(p, l, e).infos
    ensures var home, pos := HomeBucket(p, s.infos[e]), HomePosition(p, s.infos[e]);
      Evict(p, l, e).infos.Keys == s.infos.Keys - (Forgotten(s, s.news[home][pos]) - {id})
  {
    var home, pos := HomeBucket(p, s.infos[e]), HomePosition(p, s.infos[e]);
    var t := LeaveTriedSlot(p, l, e);
    assert t.infos.Keys == s.infos.Keys;
    assert Evict(p, l, e).infos.Keys == ClearNew(t, home, pos).infos.Keys;
  }

  // ----- Add_ -------------------------------------------------------------------------------------

  ghost predicate AddDone(p: ParamsOk, s: State, t: State, x: Announced, source: NetAddr, nTimePenalty: int,
                          now: int, later: int, lucky: bool, isNew: bool)
    requires Shaped(s.news, p.newBuckets, p.bucketSize)
  {
    var penalty := if x.addr.net == source then 0 else nTimePenalty;
    if !p.isRoutable(x.addr.net) then t == s && !isNew
    else
      && t.tried == s.tried && t.collisions == s.collisions && t.lastGood == s.lastGood
      && if x.addr.net in s.addrs then !isNew && HeardAgain(p, s, t, s.addrs[x.addr.net], x, source, penalty, now, later, lucky)
         else isNew && HeardFirst(p, s, t, x, source, penalty, later)
  }

  /** An unknown address is known afterwards exactly if the slot of its source's bucket was free, or its holder was
      terrible or had another slot; then it sits in exactly this slot. */
  ghost predicate HeardFirst(p: ParamsOk, s: State, t: State, x: Announced, source: NetAddr, penalty: int, later: int)
    requires Shaped(s.news, p.newBuckets, p.bucketSize)
  {
    var id := s.idCount;
    var b := NewBucket(p, x.addr, source);
    var i := Position(p, x.addr, true, b);
    var holder := s.news[b][i];
    && t.idCount == s.idCount + 1 && OthersKept(s, t, id)
    && if holder == -1 || (holder in s.infos && (IsTerrible(s.infos[holder], later) || s.infos[holder].refCount > 1)) then
         && x.addr.net in t.addrs && t.addrs[x.addr.net] == id && id in t.infos
         && t.infos[id] == Info(x.addr, source, if x.nTime - penalty < 0 then 0 else x.nTime - penalty, x.services,
                                0, 0, 0, 0, 1, false, t.infos[id].randomPos)
         && OnlySlot(s.news, t.news, b, i, id)
         && t.infos.Keys == s.infos.Keys + {id} - Forgotten(s, holder)
       else
         x.addr.net !in t.addrs && t.news == s.news && t.infos.Keys == s.infos.Keys
  }

  /** The time of a known address becomes the one announced, less the penalty, if it is missing or too old. */
  ghost predicate Overdue(info: Info, x: Announced, penalty: int, now: int) {
    && x.nTime != 0
    && (info.nTime == 0 || info.nTime < x.nTime - (if now - x.nTime < 24 * 60 * 60 then 60 * 60 else 24 * 60 * 60) - penalty)
  }

  /** A known address gets the slot of this source's bucket as well if the announcement is newer, the entry is in
      the new table with less than eight slots, the lot falls on it, and the slot is free or its holder terrible. */
  ghost predicate HeardAgain(p: ParamsOk, s: State, t: State, id: int, x: Announced, source: NetAddr, penalty: int,
                             now: int, later: int, lucky: bool)
    requires Shaped(s.news, p.newBuckets, p.bucketSize)
  {
    && t.idCount == s.idCount && id in s.infos && id in t.infos && OthersKept(s, t, id)
    && var info := s.infos[id];
    var nTime := if Overdue(info, x, penalty, now) then (if x.nTime - penalty < 0 then 0 else x.nTime - penalty) else info.nTime;
    var b := NewBucket(p, info.addr, source);
    var i := Position(p, info.addr, true, b);
    var holder := s.news[b][i];
    && SameStats(info.(nTime := nTime, services := info.services + x.services), t.infos[id])
    && if x.nTime != 0 && (nTime == 0 || x.nTime > nTime) && !info.inTried && info.refCount < 8 && lucky
          && holder != id && (holder == -1 || (holder in s.infos && IsTerrible(s.infos[holder], later))) then
         && OnlySlot(s.news, t.news, b, i, id) && t.infos[id].refCount == info.refCount + 1
         && t.infos.Keys == s.infos.Keys - Forgotten(s, holder)
       else
         t.news == s.news && t.infos[id].refCount == info.refCount && t.infos.Keys == s.infos.Keys
  }

  /** Where an entry is after it tried to get a slot. */
  lemma PlaceEffect(p: ParamsOk, s: State, id: int, b: nat, now: int)
    requires Core(p, s, {id}, 0) && id in s.infos && !s.infos[id].inTried && b < p.newBuckets
    requires s.infos[id].refCount < NEW_BUCKETS_PER_ADDRESS
    ensures var t := Place(p, s, id, b, now);
      var holder := s.news[b][Position(p, s.infos[id].addr, true, b)];
      if holder == id then t == s
      else if TakesOver(s, id, holder, now) then
        && t.infos.Keys == s.infos.Keys - Forgotten(s, holder) && id in t.infos
        && t.infos[id] == s.infos[id].(refCount := s.infos[id].refCount + 1, randomPos := t.infos[id].randomPos)
      else if s.infos[id].refCount == 0 then t.infos.Keys == s.infos.Keys - {id}
      else t == s
  {
    var i := Position(p, s.infos[id].addr, true, b);
    var holder := s.news[b][i];
    if holder != id {
      if TakesOver(s, id, holder, now) {
        PlaceTakesOver(p, s, id, b);
        ClearNewKeeps(p, s, b, i, {id}, 0);
        HolderStays(s, ClearNew(s, b, i), b, i, id);
        NewHolders(p, s, {id}, 0);
        DatesOf(p, s, {id}, 0, id);
        NoMinusOne(p, s, {id}, 0);
        assert Place(p, s, id, b, now).infos.Keys == ClearNew(s, b, i).infos.Keys;
      } else if s.infos[id].refCount == 0 {
        DeleteKeeps(p, s, id, {id}, 0);
      }
    }
  }

  lemma NoMinusOne(p: ParamsOk, s: State, loose: set<int>, away: nat)
    requires Core(p, s, loose, away)
    ensures -1 !in s.infos
  {
    if -1 in s.infos {
      DatesOf(p, s, loose, away, -1);
    }
  }

  /** What Create leaves, where a new address is to be placed. */
  lemma CreatedEffect(p: ParamsOk, s: State, x: Announced, source: NetAddr, penalty: int, later: int)
    requires Core(p, s, {}, 0) && x.addr.net !in s.addrs
    ensures var id, b := s.idCount, NewBucket(p, x.addr, source);
      var u := Create(s, x, source, penalty);
      var holder := s.news[b][Position(p, x.addr, true, b)];
      && Core(p, u, {id}, 0) && id !in s.infos && holder != id && (holder == -1 || holder in s.infos)
      && (TakesOver(u, id, holder, later) <==>
            holder == -1 || (holder in s.infos && (IsTerrible(s.infos[holder], later) || s.infos[holder].refCount > 1)))
      && Forgotten(u, holder) == Forgotten(s, holder)
    ensures forall k :: k in s.infos ==> s.infos[k].addr.net != x.addr.net
  {
    CountsOf(p, s, {}, 0);
    NewHolders(p, s, {}, 0);
    CreateKeeps(p, s, x, source, penalty);
    Unfold(p, s, {}, 0);
  }

  lemma FirstEffect(p: ParamsOk, s: State, x: Announced, source: NetAddr, penalty: int, later: int)
    requires Valid(p, s) && x.addr.net !in s.addrs
    ensures HeardFirst(p, s, AddUnknown(p, s, x, source, penalty, later), x, source, penalty, later)
  {
    var id, b := s.idCount, NewBucket(p, x.addr, source);
    var u := Create(s, x, source, penalty);
    CreatedEffect(p, s, x, source, penalty, later);
    PlaceKeeps(p, u, id, b, later);
    PlaceEffect(p, u, id, b, later);
    var t := Place(p, u, id, b, later);
    PlacedOthers(s, u, t, id);
    if TakesOver(u, id, s.news[b][Position(p, x.addr, true, b)], later) {
      KnownByAddress(p, t, id, x.addr.net);
      PlacedKeys(s, u, t, id, s.news[b][Position(p, x.addr, true, b)]);
    } else {
      assert t.infos.Keys == s.infos.Keys;
      NotByAddress(p, s, t, x.addr.net);
    }
  }

  lemma PlacedKeys(s: State, u: State, t: State, id: int, holder: int)
    requires u.infos.Keys == s.infos.Keys + {id} && t.infos.Keys == u.infos.Keys - Forgotten(u, holder)
    requires Forgotten(u, holder) == Forgotten(s, holder) && id !in s.infos
    ensures t.infos.Keys == s.infos.Keys + {id} - Forgotten(s, holder)
  {
  }

  lemma PlacedOthers(s: State, u: State, t: State, id: int)
    requires Kept(u.infos, t.infos) && id in u.infos && u.infos == s.infos[id := u.infos[id]]
    ensures OthersKept(s, t, id)
  {
    forall k | k in t.infos && k != id ensures k in s.infos && SameStats(s.infos[k], t.infos[k]) {
      assert SameStats(u.infos[k], t.infos[k]);
    }
  }

  /** An entry is found under its address. */
  lemma KnownByAddress(p: ParamsOk, t: State, id: int, net: NetAddr)
    requires Core(p, t, {}, 0) && id in t.infos && t.infos[id].addr.net == net
    ensures net in t.addrs && t.addrs[net] == id
  {
    Unfold(p, t, {}, 0);
  }

  lemma NotByAddress(p: ParamsOk, s: State, t: State, net: NetAddr)
    requires Core(p, t, {}, 0) && forall k :: k in s.infos ==> s.infos[k].addr.net != net
    requires forall k :: k in t.infos ==> k in s.infos && t.infos[k].addr == s.infos[k].addr
    ensures net !in t.addrs
  {
    forall n | n in t.addrs ensures n != net {
      EntryOf(p, t, {}, 0, n);
      var k := t.addrs[n];
      assert k in t.infos;
      assert k in s.infos && s.infos[k].addr.net != net;
    }
  }

  lemma AgainEffect(p: ParamsOk, s: State, x: Announced, source: NetAddr, penalty: int, now: int, later: int, lucky: bool)
    requires Valid(p, s) && x.addr.net in s.addrs
    ensures HeardAgain(p, s, AddKnown(p, s, x, source, penalty, now, later, lucky), s.addrs[x.addr.net], x, source, penalty, now, later, lucky)
  {
    EntryOf(p, s, {}, 0, x.addr.net);
    var id := s.addrs[x.addr.net];
    RefreshValid(p, s, id, x, penalty, now);
    var info := Refreshed(s.infos[id], x, penalty, now);
    RefsOf(p, s, {}, 0, id);
    if !info.inTried && info.refCount < NEW_BUCKETS_PER_ADDRESS {
      AgainPlaced(p, s, Touch(s, id, info), id, NewBucket(p, info.addr, source), later);
    }
  }

  /** A known entry that tries to get a further slot. */
  lemma AgainPlaced(p: ParamsOk, s: State, u: State, id: int, b: nat, later: int)
    requires Core(p, s, {}, 0) && Core(p, u, {id}, 0) && id in s.infos && id in u.infos && u == Touch(s, id, u.infos[id]) && b < p.newBuckets
    requires u.infos[id].addr == s.infos[id].addr && u.infos[id].refCount == s.infos[id].refCount
    requires !u.infos[id].inTried && 1 <= u.infos[id].refCount < NEW_BUCKETS_PER_ADDRESS
    ensures var t := Place(p, u, id, b, later);
      var i := Position(p, s.infos[id].addr, true, b);
      var holder := s.news[b][i];
      && t.tried == s.tried && t.idCount == s.idCount && OthersKept(s, t, id)
      && id in t.infos && SameStats(u.infos[id], t.infos[id])
      && if holder != id && (holder == -1 || (holder in s.infos && IsTerrible(s.infos[holder], later))) then
           && OnlySlot(s.news, t.news, b, i, id) && t.infos[id].refCount == s.infos[id].refCount + 1
           && t.infos.Keys == s.infos.Keys - Forgotten(s, holder)
         else t.news == s.news && t.infos[id].refCount == s.infos[id].refCount && t.infos.Keys == s.infos.Keys
  {
    assert u.infos.Keys == s.infos.Keys;
    PlaceKeeps(p, u, id, b, later);
    PlaceEffect(p, u, id, b, later);
    PlacedOthers(s, u, Place(p, u, id, b, later), id);
  }

  /** Add_ does this. */
  lemma AddEffect(p: ParamsOk, s: State, x: Announced, source: NetAddr, nTimePenalty: int, now: int, later: int, lucky: bool)
    requires Valid(p, s)
    ensures var (t, isNew) := Add(p, s, x, source, nTimePenalty, now, later, lucky);
      AddDone(p, s, t, x, source, nTimePenalty, now, later, lucky, isNew)
  {
    AddValid(p, s, x, source, nTimePenalty, now, later, lucky);
    var penalty := if x.addr.net == source then 0 else nTimePenalty;
    if p.isRoutable(x.addr.net) {
      if x.addr.net in s.addrs {
        AgainEffect(p, s, x, source, penalty, now, later, lucky);
      } else {
        FirstEffect(p, s, x, source, penalty, later);
      }
    }
  }

  // ----- ResolveCollisions_ -----------------------------------------------------------------------

  /** One member of the collision set: it is forgotten when it is unknown or not valid or when the incumbent was reached
      in the last four hours; it takes the slot when the incumbent was tried in vain in the last four hours but
      not in the last minute; otherwise it goes on waiting. */
  ghost predicate ResolveDone(p: ParamsOk, s: State, t: State, id: int, at: Readings)
    requires Shaped(s.tried, p.triedBuckets, p.bucketSize)
  {
    if id !in s.infos || !p.isValid(s.infos[id].addr.net) then t == s.(collisions := s.collisions - {id})
    else
      var addr := s.infos[id].addr;
      var slot := s.tried[TriedBucket(p, addr)][TriedPosition(p, addr)];
      && slot in s.infos && Exactly(s, addr) && s.addrs[addr.net] == id
      && var incumbent := s.infos[slot];
      if at.success - incumbent.lastSuccess < 4 * 60 * 60 then t == s.(collisions := s.collisions - {id})
      else if at.attempt - incumbent.lastTry < 4 * 60 * 60 && at.patience - incumbent.lastTry > 60 then
        t.collisions == s.collisions - {id} && GoodDone(p, s, t.(collisions := s.collisions), addr, false, at.stamp)
      else t == s
  }

  lemma ResolveEffect(p: ParamsOk, s: State, id: int, at: Readings)
    requires Valid(p, s) && id in s.collisions && at.stamp > 0
    ensures ResolveDone(p, s, ResolveOne(p, s, id, at), id, at)
  {
    if id in s.infos {
      CollisionHolderKnown(p, s, id);
      KnownByAddress(p, s, id, s.infos[id].addr.net);
      if Judge(p, s, id, at) == Swap {
        GoodEffect(p, s, s.infos[id].addr, false, at.stamp);
        GoodKeepsCollisions(p, s, s.infos[id].addr, at.stamp);
        var g := Good(p, s, s.infos[id].addr, false, at.stamp);
        assert Erase(g, id).(collisions := s.collisions) == g;
      }
    }
  }

  // ----- operations on one entry ------------------------------------------------------------------

  /** At most this entry has changed. */
  ghost predicate OnlyEntry(s: State, t: State, id: int) {
    && t == s.(infos := t.infos) && t.infos.Keys == s.infos.Keys && id in s.infos
    && forall k :: k in s.infos && k != id ==> t.infos[k] == s.infos[k]
  }

  /** The attempt is noted; it counts as a failure when the last one that counted was before the last success of any peer. */
  ghost predicate AttemptDone(s: State, t: State, addr: Service, countFailure: bool, nTime: int) {
    if !Exactly(s, addr) then t == s
    else
      var id := s.addrs[addr.net];
      && OnlyEntry(s, t, id)
      && var was, now := s.infos[id], t.infos[id];
      && now.lastTry == nTime && now == was.(lastTry := now.lastTry, attempts := now.attempts, lastCountAttempt := now.lastCountAttempt)
      && if countFailure && was.lastCountAttempt < s.lastGood then now.attempts == was.attempts + 1 && now.lastCountAttempt == nTime
         else now.attempts == was.attempts && now.lastCountAttempt == was.lastCountAttempt
  }

  /** The time of an entry moves only if it is more than twenty minutes old. */
  ghost predicate ConnectedDone(s: State, t: State, addr: Service, nTime: int) {
    if !Exactly(s, addr) then t == s
    else
      var id := s.addrs[addr.net];
      && OnlyEntry(s, t, id)
      && t.infos[id] == s.infos[id].(nTime := if nTime > s.infos[id].nTime + 1200 then nTime else s.infos[id].nTime)
  }

  ghost predicate ServicesDone(s: State, t: State, addr: Service, services: set<nat>) {
    if !Exactly(s, addr) then t == s
    else
      var id := s.addrs[addr.net];
      OnlyEntry(s, t, id) && t.infos[id] == s.infos[id].(services := services)
  }

  lemma EntryEffects(p: ParamsOk, s: State, addr: Service, countFailure: bool, nTime: int, services: set<nat>)
    requires Valid(p, s)
    ensures AttemptDone(s, Attempt(s, addr, countFailure, nTime), addr, countFailure, nTime)
    ensures ConnectedDone(s, Connected(s, addr, nTime), addr, nTime)
    ensures ServicesDone(s, SetServices(s, addr, services), addr, services)
  {
    NoMinusOne(p, s, {}, 0);
  }

  /** Until some peer was reached again, further failures of a peer do not count. */
  lemma OneFailureCounts(s: State, t: State, u: State, addr: Service, first: int, second: int)
    requires AttemptDone(s, t, addr, true, first) && AttemptDone(t, u, addr, true, second) && Exactly(s, addr) && first >= s.lastGood
    ensures u.infos[s.addrs[addr.net]].attempts == t.infos[s.addrs[addr.net]].attempts <= s.infos[s.addrs[addr.net]].attempts + 1
  {
  }
}
