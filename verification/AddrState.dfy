/** The address manager's operations on its whole state, and that each keeps the tables
    in step.  Every `requires` below is an assertion or a lookup of the source. */
module AddrState {
  import opened AddrTables

  datatype State = State(
    idCount: int,
    infos: Infos,
    addrs: map<NetAddr, int>,
    random: seq<int>,
    nTried: int,
    tried: Table,
    nNew: int,
    news: Table,
    lastGood: int,
    collisions: set<int>)

  /** The ways in which the tables must agree. */
  datatype Aspect = InOrder | ByAddress | Dated | InTried | InNew | Counted

  ghost predicate Agrees(p: ParamsOk, s: State, loose: set<int>, away: nat, aspect: Aspect) {
    match aspect
    case InOrder => RandomOk(s.infos, s.random)
    case ByAddress => AddrOk(s.infos, s.addrs)
    case Dated => InfoOk(s.infos, s.idCount)
    case InTried => TriedOk(p, s.infos, s.tried)
    case InNew => NewOk(p, s.infos, s.news, loose)
    case Counted => CountsOk(s.infos, s.nTried, s.nNew, away)
  }

  /** The tables agree in every way; entries in `loose` may be without a slot at the moment, and
      `away` untried entries are not counted at the moment. */
  ghost predicate Core(p: ParamsOk, s: State, loose: set<int>, away: nat) {
    && Shaped(s.tried, p.triedBuckets, p.bucketSize) && Shaped(s.news, p.newBuckets, p.bucketSize) && s.idCount >= 0
    && forall aspect :: Agrees(p, s, loose, away, aspect)
  }

  /** What agreement means. */
  lemma Unfold(p: ParamsOk, s: State, loose: set<int>, away: nat)
    requires Core(p, s, loose, away)
    ensures RandomOk(s.infos, s.random) && AddrOk(s.infos, s.addrs) && InfoOk(s.infos, s.idCount)
    ensures TriedOk(p, s.infos, s.tried) && NewOk(p, s.infos, s.news, loose)
    ensures CountsOk(s.infos, s.nTried, s.nNew, away)
  {
    assert Agrees(p, s, loose, away, InOrder) && Agrees(p, s, loose, away, ByAddress) && Agrees(p, s, loose, away, Dated);
    assert Agrees(p, s, loose, away, InTried) && Agrees(p, s, loose, away, InNew) && Agrees(p, s, loose, away, Counted);
  }

  lemma Fold(p: ParamsOk, s: State, loose: set<int>, away: nat)
    requires RandomOk(s.infos, s.random) && AddrOk(s.infos, s.addrs) && InfoOk(s.infos, s.idCount)
    requires TriedOk(p, s.infos, s.tried) && NewOk(p, s.infos, s.news, loose)
    requires CountsOk(s.infos, s.nTried, s.nNew, away)
    ensures Core(p, s, loose, away)
  {
  }

  /** What the source's checker tests, and that waiting entries wait for occupied slots. */
  ghost predicate Valid(p: ParamsOk, s: State) {
    Core(p, s, {}, 0) && CollisionsOk(p, s.infos, s.tried, s.collisions, s.idCount)
  }

  function Fresh(p: ParamsOk): State {
    State(0, map[], map[], [], 0, EmptyTable(p.triedBuckets, p.bucketSize),
          0, EmptyTable(p.newBuckets, p.bucketSize), 1, {})
  }

  lemma FreshValid(p: ParamsOk)
    ensures Valid(p, Fresh(p))
  {
    assert TriedIds(map[]) == {} && NewIds(map[]) == {};
    Fold(p, Fresh(p), {}, 0);
  }

  /** Equal apart from the bookkeeping of tables and random order. */
  predicate SameStats(a: Info, b: Info) {
    b == a.(refCount := b.refCount, inTried := b.inTried, randomPos := b.randomPos)
  }

  /** The entries of `m'` are entries of `m` with the same statistics. */
  ghost predicate Kept(m: Infos, m': Infos) {
    forall id :: id in m' ==> id in m && SameStats(m[id], m'[id])
  }

  /** The entries of `m'` are entries of `m` that changed at most their random position. */
  ghost predicate Moved(m: Infos, m': Infos) {
    forall id :: id in m' ==> id in m && m'[id] == m[id].(randomPos := m'[id].randomPos)
  }

  // ----- SwapRandom and Delete ----------------------------------------------------

  predicate CanSwap(s: State, i: int, j: int) {
    i == j || (0 <= i < |s.random| && 0 <= j < |s.random| && s.random[i] in s.infos && s.random[j] in s.infos)
  }

  function SwapRandom(s: State, i: int, j: int): State
    requires CanSwap(s, i, j)
  {
    if i == j then s
    else
      var id1, id2 := s.random[i], s.random[j];
      var infos := s.infos[id1 := s.infos[id1].(randomPos := j)];
      s.(infos := infos[id2 := infos[id2].(randomPos := i)], random := s.random[i := id2][j := id1])
  }

  lemma SwapRandomKeeps(p: ParamsOk, s: State, i: int, j: int, loose: set<int>, away: nat)
    requires Core(p, s, loose, away) && (i == j || (0 <= i < |s.random| && 0 <= j < |s.random|))
    ensures CanSwap(s, i, j) && Core(p, SwapRandom(s, i, j), loose, away)
    ensures SameShape(s.infos, SwapRandom(s, i, j).infos) && Moved(s.infos, SwapRandom(s, i, j).infos)
    ensures |SwapRandom(s, i, j).random| == |s.random|
    ensures 0 <= i < |s.random| ==>
      s.random[i] in SwapRandom(s, i, j).infos && SwapRandom(s, i, j).infos[s.random[i]].randomPos == j
  {
    Unfold(p, s, loose, away);
    if i != j {
      SwapInOrder(s, i, j);
      MovedKeeps(p, s, SwapRandom(s, i, j), loose, away);
    }
  }

  lemma SwapInOrder(s: State, i: int, j: int)
    requires RandomOk(s.infos, s.random) && i != j && 0 <= i < |s.random| && 0 <= j < |s.random|
    ensures CanSwap(s, i, j)
    ensures var t := SwapRandom(s, i, j);
      RandomOk(t.infos, t.random) && SameShape(s.infos, t.infos) && Moved(s.infos, t.infos)
      && s.random[i] in t.infos && t.infos[s.random[i]].randomPos == j
  {
    SwapKeepsRandom(s.infos, s.random, i, j);
  }

  /** A change of random positions alone keeps everything else. */
  lemma MovedKeeps(p: ParamsOk, s: State, t: State, loose: set<int>, away: nat)
    requires Core(p, s, loose, away) && t == s.(infos := t.infos, random := t.random)
    requires RandomOk(t.infos, t.random) && SameShape(s.infos, t.infos) && Moved(s.infos, t.infos)
    ensures Core(p, t, loose, away)
  {
    Unfold(p, s, loose, away);
    ShapeKeepsTables(p, s.infos, t.infos, s.news, s.tried, loose);
    ShapeKeepsIndexes(s.infos, t.infos, s.addrs);
    MovedKeepsDates(s.infos, t.infos, s.idCount);
    Fold(p, t, loose, away);
  }

  lemma MovedKeepsDates(m: Infos, m': Infos, idCount: int)
    requires InfoOk(m, idCount) && Moved(m, m')
    ensures InfoOk(m', idCount)
  {
  }

  /** Where an entry is in the random order. */
  lemma KnownPlace(p: ParamsOk, s: State, loose: set<int>, away: nat, id: int)
    requires Core(p, s, loose, away) && id in s.infos
    ensures 0 <= s.infos[id].randomPos < |s.random| && s.random[s.infos[id].randomPos] == id
  {
    Unfold(p, s, loose, away);
  }

  predicate CanDelete(s: State, id: int) {
    && id in s.infos
    && !s.infos[id].inTried
    && s.infos[id].refCount == 0
    && |s.random| > 0
    && CanSwap(s, s.infos[id].randomPos, |s.random| - 1)
  }

  /** Dropping an entry that is last in the random order. */
  function DropLast(s: State, id: int): State
    requires id in s.infos && |s.random| > 0
  {
    s.(random := s.random[..|s.random| - 1],
       addrs := s.addrs - {s.infos[id].addr.net},
       infos := s.infos - {id},
       nNew := s.nNew - 1)
  }

  function Delete(s: State, id: int): State
    requires CanDelete(s, id)
  {
    DropLast(SwapRandom(s, s.infos[id].randomPos, |s.random| - 1), id)
  }

  lemma DropLastKeeps(p: ParamsOk, s: State, id: int, loose: set<int>, away: nat)
    requires Core(p, s, loose, away) && id in s.infos && !s.infos[id].inTried && s.infos[id].refCount == 0
    requires |s.random| > 0 && s.infos[id].randomPos == |s.random| - 1
    ensures Core(p, DropLast(s, id), loose - {id}, away)
  {
    Unfold(p, s, loose, away);
    RemoveKeepsTables(p, s.infos, s.news, s.tried, loose, id);
    RemoveKeepsIndexes(s.infos, s.addrs, s.nTried, s.nNew, away, id);
    PopKeepsRandom(s.infos, s.random, id);
    Fold(p, DropLast(s, id), loose - {id}, away);
  }

  lemma DropLastStats(s: State, t: State, id: int)
    requires SameShape(s.infos, t.infos) && Moved(s.infos, t.infos) && id in t.infos && |t.random| > 0
    ensures DropLast(t, id).infos.Keys == s.infos.Keys - {id} && Moved(s.infos, DropLast(t, id).infos)
  {
  }

  lemma DeleteKeeps(p: ParamsOk, s: State, id: int, loose: set<int>, away: nat)
    requires Core(p, s, loose, away) && id in s.infos && !s.infos[id].inTried && s.infos[id].refCount == 0
    ensures CanDelete(s, id) && Core(p, Delete(s, id), loose - {id}, away)
    ensures Delete(s, id).infos.Keys == s.infos.Keys - {id} && Moved(s.infos, Delete(s, id).infos)
  {
    var pos, last := s.infos[id].randomPos, |s.random| - 1;
    KnownPlace(p, s, loose, away, id);
    SwapRandomKeeps(p, s, pos, last, loose, away);
    var t := SwapRandom(s, pos, last);
    assert id in t.infos.Keys;
    DropLastKeeps(p, t, id, loose, away);
    DropLastStats(s, t, id);
    assert Delete(s, id) == DropLast(t, id);
  }

  // ----- ClearNew -----------------------------------------------------------------

  predicate InTable(t: Table, b: nat, i: nat) {
    b < |t| && i < |t[b]|
  }

  /** One reference less for the holder of a slot, which becomes empty. */
  function Unref(s: State, b: nat, i: nat): State
    requires InTable(s.news, b, i) && s.news[b][i] in s.infos
  {
    var id := s.news[b][i];
    s.(infos := s.infos[id := s.infos[id].(refCount := s.infos[id].refCount - 1)], news := SetSlot(s.news, b, i, -1))
  }

  predicate CanClearNew(s: State, b: nat, i: nat) {
    && InTable(s.news, b, i)
    && (s.news[b][i] != -1 ==>
          && s.news[b][i] in s.infos
          && s.infos[s.news[b][i]].refCount > 0
          && (s.infos[s.news[b][i]].refCount == 1 ==> CanDelete(Unref(s, b, i), s.news[b][i])))
  }

  function ClearNew(s: State, b: nat, i: nat): State
    requires CanClearNew(s, b, i)
  {
    if s.news[b][i] == -1 then s
    else if s.infos[s.news[b][i]].refCount == 1 then Delete(Unref(s, b, i), s.news[b][i])
    else Unref(s, b, i)
  }

  /** The holder of a new slot, and the new table without it there. */
  lemma SlotHolder(p: ParamsOk, s: State, b: nat, i: nat, loose: set<int>, away: nat)
    requires Core(p, s, loose, away) && InTable(s.news, b, i) && s.news[b][i] != -1
    ensures s.news[b][i] in s.infos && s.infos[s.news[b][i]].refCount > 0 && !s.infos[s.news[b][i]].inTried
    ensures NewOk(p, Unref(s, b, i).infos, Unref(s, b, i).news, loose + {s.news[b][i]})
  {
    Unfold(p, s, loose, away);
    ClearSlotKeepsNew(p, s.infos, s.news, loose, b, i);
  }

  /** A change of one untried entry's reference count and of the new table keeps everything else. */
  lemma CountKeeps(p: ParamsOk, s: State, t: State, id: int, loose: set<int>, loose': set<int>, away: nat, away': nat)
    requires Core(p, s, loose, away) && id in s.infos && !s.infos[id].inTried && id in t.infos
    requires t == s.(infos := s.infos[id := s.infos[id].(refCount := t.infos[id].refCount)], news := t.news, nNew := t.nNew)
    requires NewOk(p, t.infos, t.news, loose') && t.nNew + away' == s.nNew + away
    ensures Core(p, t, loose', away')
  {
    Unfold(p, s, loose, away);
    RefCountIsPrivate(p, s.infos, id, t.infos[id].refCount, s.random, s.addrs, s.idCount, s.tried);
    Fold(p, t, loose', away');
  }

  lemma UnrefKeeps(p: ParamsOk, s: State, b: nat, i: nat, loose: set<int>, away: nat)
    requires Core(p, s, loose, away) && InTable(s.news, b, i) && s.news[b][i] != -1
    ensures s.news[b][i] in s.infos && s.infos[s.news[b][i]].refCount > 0 && !s.infos[s.news[b][i]].inTried
    ensures Core(p, Unref(s, b, i), loose + {s.news[b][i]}, away)
  {
    var id := s.news[b][i];
    SlotHolder(p, s, b, i, loose, away);
    CountKeeps(p, s, Unref(s, b, i), id, loose, loose + {id}, away, away);
  }

  /** An entry with a reference, or a tried one, need not be called loose. */
  lemma TightenCore(p: ParamsOk, s: State, loose: set<int>, away: nat, id: int)
    requires Core(p, s, loose + {id}, away) && (id in s.infos ==> s.infos[id].refCount >= 1 || s.infos[id].inTried)
    ensures Core(p, s, loose, away)
  {
    Unfold(p, s, loose + {id}, away);
    TightenLoose(p, s.infos, s.news, loose, id);
    Fold(p, s, loose, away);
  }

  lemma LoosenCore(p: ParamsOk, s: State, loose: set<int>, looser: set<int>, away: nat)
    requires Core(p, s, loose, away) && loose <= looser
    ensures Core(p, s, looser, away)
  {
    Unfold(p, s, loose, away);
    Loosen(p, s.infos, s.news, loose, looser);
    Fold(p, s, looser, away);
  }

  /** Clearing a slot empties exactly that slot and forgets its holder exactly if this was
      the holder's last reference. */
  lemma ClearNewKeeps(p: ParamsOk, s: State, b: nat, i: nat, loose: set<int>, away: nat)
    requires Core(p, s, loose, away) && InTable(s.news, b, i) && s.news[b][i] !in loose
    ensures CanClearNew(s, b, i)
    ensures var t := ClearNew(s, b, i);
      && Core(p, t, loose, away)
      && t.news == SetSlot(s.news, b, i, -1)
      && t.infos.Keys == s.infos.Keys - (if s.news[b][i] != -1 && s.infos[s.news[b][i]].refCount == 1 then {s.news[b][i]} else {})
      && Moved(if s.news[b][i] == -1 then s.infos else Unref(s, b, i).infos, t.infos)
      && t == s.(infos := t.infos, news := t.news, random := t.random, addrs := t.addrs, nNew := t.nNew)
  {
    var id := s.news[b][i];
    if id == -1 {
      assert s.news[b][i := -1] == s.news[b];
      assert SetSlot(s.news, b, i, -1) == s.news;
    } else {
      UnrefKeeps(p, s, b, i, loose, away);
      var u := Unref(s, b, i);
      if s.infos[id].refCount == 1 {
        DeleteKeeps(p, u, id, loose + {id}, away);
        assert loose + {id} - {id} == loose;
      } else {
        TightenCore(p, u, loose, away, id);
      }
    }
  }

  // ----- MakeTried ----------------------------------------------------------------

  /** The new table after the loop of MakeTried over all buckets. */
  function ClearedAll(p: ParamsOk, news: Table, id: int, a: Service): (r: Table)
    requires Shaped(news, p.newBuckets, p.bucketSize)
    ensures Shaped(r, p.newBuckets, p.bucketSize)
    ensures forall b, i :: 0 <= b < p.newBuckets && 0 <= i < p.bucketSize ==>
      r[b][i] == if i == Position(p, a, true, b) && news[b][i] == id then -1 else news[b][i]
  {
    seq(p.newBuckets, b requires 0 <= b < p.newBuckets => ClearedRow(news[b], Position(p, a, true, b), id))
  }

  function ClearedRow(row: seq<int>, i: nat, id: int): seq<int>
    requires i < |row|
  {
    if row[i] == id then row[i := -1] else row
  }

  /** First phase: out of every new bucket. */
  function LeaveNew(p: ParamsOk, s: State, id: int): State
    requires Shaped(s.news, p.newBuckets, p.bucketSize) && id in s.infos
  {
    var info := s.infos[id];
    var refs := |Buckets(p, s.news, id, info.addr)|;
    s.(news := ClearedAll(p, s.news, id, info.addr),
       infos := s.infos[id := info.(refCount := info.refCount - refs)],
       nNew := s.nNew - 1)
  }

  lemma ClearedAllKeepsNew(p: ParamsOk, m: Infos, news: Table, id: int)
    requires NewOk(p, m, news, {}) && id in m && -1 !in m
    ensures NewOk(p, m[id := m[id].(refCount := 0)], ClearedAll(p, news, id, m[id].addr), {id})
  {
    var news' := ClearedAll(p, news, id, m[id].addr);
    var m' := m[id := m[id].(refCount := 0)];
    forall k | k in m' ensures RefsOk(p, m'[k], news', k, k in {id}) {
      assert RefsOk(p, m[k], news, k, false);
      if k == id {
        assert Buckets(p, news', k, m[k].addr) == {};
      } else {
        assert Buckets(p, news', k, m[k].addr) == Buckets(p, news, k, m[k].addr);
      }
    }
  }

  lemma NoneLeft(p: ParamsOk, s: State, id: int)
    requires Core(p, s, {}, 0) && id in s.infos
    ensures var t := LeaveNew(p, s, id);
      t.infos == s.infos[id := s.infos[id].(refCount := 0)] && NewOk(p, t.infos, t.news, {id})
  {
    Unfold(p, s, {}, 0);
    assert RefsOk(p, s.infos[id], s.news, id, false);
    ClearedAllKeepsNew(p, s.infos, s.news, id);
  }

  lemma LeaveNewKeeps(p: ParamsOk, s: State, id: int)
    requires Core(p, s, {}, 0) && id in s.infos && !s.infos[id].inTried
    ensures var t := LeaveNew(p, s, id);
      Core(p, t, {id}, 1) && t.infos == s.infos[id := s.infos[id].(refCount := 0)]
  {
    NoneLeft(p, s, id);
    CountKeeps(p, s, LeaveNew(p, s, id), id, {}, {id}, 0, 1);
  }

  /** An entry gives up its tried slot. */
  function LeaveTriedSlot(p: ParamsOk, s: State, id: int): State
    requires Shaped(s.tried, p.triedBuckets, p.bucketSize) && id in s.infos
  {
    var a := s.infos[id].addr;
    s.(infos := s.infos[id := s.infos[id].(inTried := false)],
       tried := SetSlot(s.tried, TriedBucket(p, a), TriedPosition(p, a), -1),
       nTried := s.nTried - 1)
  }

  lemma LeavesTables(p: ParamsOk, s: State, id: int, loose: set<int>, away: nat)
    requires Core(p, s, loose, away) && id in s.infos && s.infos[id].inTried
    ensures var t := LeaveTriedSlot(p, s, id);
      NewOk(p, t.infos, t.news, loose + {id}) && TriedOk(p, t.infos, t.tried)
  {
    Unfold(p, s, loose, away);
    LeaveTried(p, s.infos, s.news, s.tried, loose, id);
  }

  /** A change of one entry's flag and of the tables keeps everything else. */
  lemma FlagKeeps(p: ParamsOk, s: State, t: State, id: int, loose: set<int>, loose': set<int>, away: nat, away': nat)
    requires Core(p, s, loose, away) && id in s.infos && id in t.infos && t.infos[id].inTried == !s.infos[id].inTried
    requires t == s.(infos := s.infos[id := s.infos[id].(inTried := t.infos[id].inTried)], tried := t.tried, nTried := t.nTried)
    requires t.infos[id].inTried ==> s.infos[id].lastSuccess != 0
    requires NewOk(p, t.infos, t.news, loose') && TriedOk(p, t.infos, t.tried)
    requires if t.infos[id].inTried then t.nTried == s.nTried + 1 && away == away' + 1 else t.nTried == s.nTried - 1 && away' == away + 1
    ensures Core(p, t, loose', away')
  {
    Unfold(p, s, loose, away);
    TriedFlagCounts(s.infos, id, t.infos[id].inTried);
    TriedFlagIsPrivate(s.infos, id, t.infos[id].inTried, s.random, s.addrs, s.idCount);
    Fold(p, t, loose', away');
  }

  lemma LeaveTriedSlotKeeps(p: ParamsOk, s: State, id: int, loose: set<int>, away: nat)
    requires Core(p, s, loose, away) && id in s.infos && s.infos[id].inTried
    ensures Core(p, LeaveTriedSlot(p, s, id), loose + {id}, away + 1)
  {
    LeavesTables(p, s, id, loose, away);
    FlagKeeps(p, s, LeaveTriedSlot(p, s, id), id, loose, loose + {id}, away, away + 1);
  }

  lemma TriedFlagIsPrivate(m: Infos, id: int, flag: bool, v: seq<int>, a: map<NetAddr, int>, idCount: int)
    requires id in m && (flag ==> m[id].lastSuccess != 0)
    ensures var m' := m[id := m[id].(inTried := flag)];
      && (RandomOk(m, v) ==> RandomOk(m', v))
      && (AddrOk(m, a) ==> AddrOk(m', a))
      && (InfoOk(m, idCount) ==> InfoOk(m', idCount))
  {
  }

  /** An entry takes an empty tried slot. */
  function EnterTriedSlot(p: ParamsOk, s: State, id: int): State
    requires Shaped(s.tried, p.triedBuckets, p.bucketSize) && id in s.infos
  {
    var a := s.infos[id].addr;
    s.(infos := s.infos[id := s.infos[id].(inTried := true)],
       tried := SetSlot(s.tried, TriedBucket(p, a), TriedPosition(p, a), id),
       nTried := s.nTried + 1)
  }

  lemma EntersTables(p: ParamsOk, s: State, id: int)
    requires Core(p, s, {id}, 1) && id in s.infos && !s.infos[id].inTried && s.infos[id].refCount == 0
    requires s.tried[TriedBucket(p, s.infos[id].addr)][TriedPosition(p, s.infos[id].addr)] == -1
    ensures var t := EnterTriedSlot(p, s, id);
      NewOk(p, t.infos, t.news, {}) && TriedOk(p, t.infos, t.tried)
  {
    Unfold(p, s, {id}, 1);
    EnterTried(p, s.infos, s.news, s.tried, {id}, id);
    assert {id} - {id} == {};
  }

  lemma EnterTriedSlotKeeps(p: ParamsOk, s: State, id: int)
    requires Core(p, s, {id}, 1) && id in s.infos && !s.infos[id].inTried && s.infos[id].refCount == 0
    requires s.infos[id].lastSuccess != 0
    requires s.tried[TriedBucket(p, s.infos[id].addr)][TriedPosition(p, s.infos[id].addr)] == -1
    ensures Core(p, EnterTriedSlot(p, s, id), {}, 0)
  {
    EntersTables(p, s, id);
    FlagKeeps(p, s, EnterTriedSlot(p, s, id), id, {id}, {}, 1, 0);
  }

  /** An entry without references takes an empty new slot and counts as new again. */
  function EnterNewSlot(p: ParamsOk, s: State, id: int, b: nat): State
    requires Shaped(s.news, p.newBuckets, p.bucketSize) && id in s.infos && b < p.newBuckets
  {
    var a := s.infos[id].addr;
    s.(infos := s.infos[id := s.infos[id].(refCount := 1)],
       news := SetSlot(s.news, b, Position(p, a, true, b), id),
       nNew := s.nNew + 1)
  }

  lemma SlotFilled(p: ParamsOk, s: State, id: int, b: nat, loose: set<int>, away: nat)
    requires Core(p, s, loose, away) && b < p.newBuckets
    requires id in s.infos && !s.infos[id].inTried && s.infos[id].refCount == 0
    requires s.news[b][Position(p, s.infos[id].addr, true, b)] == -1
    ensures NewOk(p, EnterNewSlot(p, s, id, b).infos, EnterNewSlot(p, s, id, b).news, loose - {id})
  {
    Unfold(p, s, loose, away);
    FillSlotKeepsNew(p, s.infos, s.news, loose, id, b);
  }

  lemma EnterNewSlotKeeps(p: ParamsOk, s: State, id: int, b: nat, loose: set<int>, away: nat)
    requires Core(p, s, loose, away) && away > 0 && b < p.newBuckets
    requires id in s.infos && !s.infos[id].inTried && s.infos[id].refCount == 0
    requires s.news[b][Position(p, s.infos[id].addr, true, b)] == -1
    ensures Core(p, EnterNewSlot(p, s, id, b), loose - {id}, away - 1)
  {
    SlotFilled(p, s, id, b, loose, away);
    CountKeeps(p, s, EnterNewSlot(p, s, id, b), id, loose, loose - {id}, away, away - 1);
  }

  // ----- single facts -------------------------------------------------------------------

  /** An entry without references sits in no new slot. */
  lemma NoSlot(p: ParamsOk, s: State, loose: set<int>, away: nat, id: int, b: nat, i: nat)
    requires Core(p, s, loose, away) && id in s.infos && s.infos[id].refCount == 0 && InTable(s.news, b, i)
    ensures s.news[b][i] != id
  {
    Unfold(p, s, loose, away);
    NoReferencesNoSlots(p, s.infos, s.news, loose, id);
  }

  /** The holder of an occupied tried slot is a tried entry whose slot it is. */
  lemma TriedHolder(p: ParamsOk, s: State, loose: set<int>, away: nat, b: nat, i: nat)
    requires Core(p, s, loose, away) && b < p.triedBuckets && i < p.bucketSize && s.tried[b][i] != -1
    ensures s.tried[b][i] in s.infos && s.infos[s.tried[b][i]].inTried
    ensures TriedBucket(p, s.infos[s.tried[b][i]].addr) == b && TriedPosition(p, s.infos[s.tried[b][i]].addr) == i
  {
    Unfold(p, s, loose, away);
  }

  /** A tried entry holds its slot. */
  lemma TriedSlotOf(p: ParamsOk, s: State, loose: set<int>, away: nat, id: int)
    requires Core(p, s, loose, away) && id in s.infos && s.infos[id].inTried
    ensures s.tried[TriedBucket(p, s.infos[id].addr)][TriedPosition(p, s.infos[id].addr)] == id
  {
    Unfold(p, s, loose, away);
  }

  /** Reference counts are those of the slots; an untried entry that is not loose has one. */
  lemma RefsOf(p: ParamsOk, s: State, loose: set<int>, away: nat, id: int)
    requires Core(p, s, loose, away) && id in s.infos
    ensures s.infos[id].refCount == |Buckets(p, s.news, id, s.infos[id].addr)| <= NEW_BUCKETS_PER_ADDRESS
    ensures !s.infos[id].inTried && id !in loose ==> s.infos[id].refCount >= 1
    ensures s.infos[id].inTried ==> s.infos[id].refCount == 0
  {
    Unfold(p, s, loose, away);
    assert RefsOk(p, s.infos[id], s.news, id, id in loose);
  }

  /** Ids and dates of an entry. */
  lemma DatesOf(p: ParamsOk, s: State, loose: set<int>, away: nat, id: int)
    requires Core(p, s, loose, away) && id in s.infos
    ensures 0 <= id < s.idCount && s.infos[id].lastTry >= 0 && s.infos[id].lastSuccess >= 0
    ensures s.infos[id].inTried ==> s.infos[id].lastSuccess != 0
  {
    Unfold(p, s, loose, away);
  }

  /** No table depends on the time of the last success or on the collision set. */
  lemma OthersKeep(p: ParamsOk, s: State, t: State, loose: set<int>, away: nat)
    requires Core(p, s, loose, away) && t == s.(lastGood := t.lastGood, collisions := t.collisions)
    ensures Core(p, t, loose, away)
  {
    Unfold(p, s, loose, away);
    Fold(p, t, loose, away);
  }

  /** The holders of new slots are known, untried entries. */
  lemma NewHolders(p: ParamsOk, s: State, loose: set<int>, away: nat)
    requires Core(p, s, loose, away)
    ensures forall b, i :: 0 <= b < p.newBuckets && 0 <= i < p.bucketSize && s.news[b][i] != -1 ==>
      s.news[b][i] in s.infos && !s.infos[s.news[b][i]].inTried && 0 <= s.news[b][i] < s.idCount
  {
    Unfold(p, s, loose, away);
  }

  /** The entry behind a known address. */
  lemma EntryOf(p: ParamsOk, s: State, loose: set<int>, away: nat, net: NetAddr)
    requires Core(p, s, loose, away) && net in s.addrs
    ensures s.addrs[net] in s.infos && s.infos[s.addrs[net]].addr.net == net
  {
    Unfold(p, s, loose, away);
  }

  /** The counters count. */
  lemma CountsOf(p: ParamsOk, s: State, loose: set<int>, away: nat)
    requires Core(p, s, loose, away)
    ensures s.nTried == |TriedIds(s.infos)| && s.nNew + away == |NewIds(s.infos)| && |s.random| == |s.infos|
    ensures s.idCount >= 0 && s.idCount !in s.infos
  {
    Unfold(p, s, loose, away);
    RandomLength(s.infos, s.random);
  }
}
