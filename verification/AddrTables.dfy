/** The redundant tables of the address manager and what keeps them in step.

    Hashes are arbitrary functions; reduction modulo the bucket counts is the code's own. */
module AddrTables {

  datatype NetAddr = NetAddr(ip: seq<nat>)

  datatype Service = Service(net: NetAddr, port: nat)

  datatype Info = Info(
    addr: Service,
    source: NetAddr,
    nTime: int,
    services: set<nat>,
    lastTry: int,
    lastCountAttempt: int,
    lastSuccess: int,
    attempts: int,
    refCount: int,
    inTried: bool,
    randomPos: int)

  /** Table sizes and the keyed hashes behind GetTriedBucket, GetNewBucket, GetBucketPosition. */
  datatype Params = Params(
    newBuckets: nat,
    triedBuckets: nat,
    bucketSize: nat,
    triedHash: Service -> nat,
    newHash: (Service, NetAddr) -> nat,
    positionHash: (Service, bool, nat) -> nat,
    isRoutable: NetAddr -> bool,
    isValid: NetAddr -> bool)

  type ParamsOk = p: Params | p.newBuckets > 0 && p.triedBuckets > 0 && p.bucketSize > 0
    witness Params(1, 1, 1, _ => 0, (_, _) => 0, (_, _, _) => 0, _ => true, _ => true)

  const NEW_BUCKETS_PER_ADDRESS := 8
  const SET_TRIED_COLLISION_SIZE := 10

  type Table = seq<seq<int>>
  type Infos = map<int, Info>

  function TriedBucket(p: ParamsOk, a: Service): (b: nat)
    ensures b < p.triedBuckets
  {
    p.triedHash(a) % p.triedBuckets
  }

  function NewBucket(p: ParamsOk, a: Service, source: NetAddr): (b: nat)
    ensures b < p.newBuckets
  {
    p.newHash(a, source) % p.newBuckets
  }

  function Position(p: ParamsOk, a: Service, isNew: bool, bucket: nat): (i: nat)
    ensures i < p.bucketSize
  {
    p.positionHash(a, isNew, bucket) % p.bucketSize
  }

  function TriedPosition(p: ParamsOk, a: Service): (i: nat)
    ensures i < p.bucketSize
  {
    Position(p, a, false, TriedBucket(p, a))
  }

  predicate Shaped(t: Table, buckets: nat, size: nat) {
    |t| == buckets && forall b :: 0 <= b < buckets ==> |t[b]| == size
  }

  function EmptyTable(buckets: nat, size: nat): (t: Table)
    ensures Shaped(t, buckets, size)
    ensures forall b, i :: 0 <= b < buckets && 0 <= i < size ==> t[b][i] == -1
  {
    seq(buckets, b => seq(size, i => -1))
  }

  function SetSlot(t: Table, b: nat, i: nat, id: int): (r: Table)
    requires b < |t| && i < |t[b]|
    ensures |r| == |t| && forall c :: 0 <= c < |t| ==> |r[c]| == |t[c]|
    ensures forall c, j :: 0 <= c < |t| && 0 <= j < |t[c]| ==> r[c][j] == if c == b && j == i then id else t[c][j]
  {
    t[b := t[b][i := id]]
  }

  // ----- the invariant, one index at a time --------------------------------------

  /** vRandom and the randomPos fields are inverse to each other. */
  ghost predicate RandomOk(m: Infos, v: seq<int>) {
    && (forall id :: id in m ==> 0 <= m[id].randomPos < |v| && v[m[id].randomPos] == id)
    && (forall i :: 0 <= i < |v| ==> v[i] in m && m[v[i]].randomPos == i)
  }

  /** mapAddr is the inverse of mapInfo on network addresses. */
  ghost predicate AddrOk(m: Infos, a: map<NetAddr, int>) {
    && (forall id :: id in m ==> m[id].addr.net in a && a[m[id].addr.net] == id)
    && (forall n :: n in a ==> a[n] in m && m[a[n]].addr.net == n)
  }

  ghost predicate InfoOk(m: Infos, idCount: int) {
    && idCount >= 0
    && forall id :: id in m ==>
      && 0 <= id < idCount
      && m[id].lastTry >= 0
      && m[id].lastSuccess >= 0
      && (m[id].inTried ==> m[id].lastSuccess != 0)
  }

  /** Every tried entry sits in its one slot and every occupied slot holds a tried entry. */
  ghost predicate TriedOk(p: ParamsOk, m: Infos, tried: Table) {
    && Shaped(tried, p.triedBuckets, p.bucketSize)
    && (forall b, i :: 0 <= b < p.triedBuckets && 0 <= i < p.bucketSize && tried[b][i] != -1 ==>
          && tried[b][i] in m
          && m[tried[b][i]].inTried
          && TriedBucket(p, m[tried[b][i]].addr) == b
          && TriedPosition(p, m[tried[b][i]].addr) == i)
    && (forall id :: id in m && m[id].inTried ==>
          m[id].refCount == 0 && tried[TriedBucket(p, m[id].addr)][TriedPosition(p, m[id].addr)] == id)
  }

  /** The new buckets in which an entry sits. */
  function Buckets(p: ParamsOk, news: Table, id: int, a: Service): set<nat>
    requires Shaped(news, p.newBuckets, p.bucketSize)
  {
    set b: nat | b < p.newBuckets && news[b][Position(p, a, true, b)] == id
  }

  /** Every occupied new slot holds a known entry at its own position, and reference counts
      are exact.  Entries in `loose` may have no slot at the moment. */
  ghost predicate NewOk(p: ParamsOk, m: Infos, news: Table, loose: set<int>) {
    && Shaped(news, p.newBuckets, p.bucketSize)
    && (forall b, i :: 0 <= b < p.newBuckets && 0 <= i < p.bucketSize && news[b][i] != -1 ==>
          && news[b][i] in m
          && !m[news[b][i]].inTried
          && Position(p, m[news[b][i]].addr, true, b) == i)
    && (forall id :: id in m ==> RefsOk(p, m[id], news, id, id in loose))
  }

  ghost predicate RefsOk(p: ParamsOk, info: Info, news: Table, id: int, isLoose: bool)
    requires Shaped(news, p.newBuckets, p.bucketSize)
  {
    && info.refCount == |Buckets(p, news, id, info.addr)|
    && info.refCount <= NEW_BUCKETS_PER_ADDRESS
    && (!info.inTried && !isLoose ==> info.refCount >= 1)
  }

  function TriedIds(m: Infos): set<int> { set id | id in m && m[id].inTried }
  function NewIds(m: Infos): set<int> { set id | id in m && !m[id].inTried }

  /** The counters are exact, apart from `away` untried entries not counted at the moment. */
  ghost predicate CountsOk(m: Infos, nTried: int, nNew: int, away: nat) {
    nTried == |TriedIds(m)| && nNew + away == |NewIds(m)|
  }

  /** A known entry waiting for a tried slot waits for an occupied one. */
  ghost predicate CollisionsOk(p: ParamsOk, m: Infos, tried: Table, collisions: set<int>, idCount: int) {
    && Shaped(tried, p.triedBuckets, p.bucketSize)
    && |collisions| <= SET_TRIED_COLLISION_SIZE
    && (forall id :: id in collisions ==> id < idCount)
    && (forall id :: id in collisions && id in m ==>
          tried[TriedBucket(p, m[id].addr)][TriedPosition(p, m[id].addr)] != -1)
  }

  // ----- changes to one entry that no table can see ------------------------------

  ghost predicate SameShape(m: Infos, m': Infos) {
    && m.Keys == m'.Keys
    && forall id :: id in m ==>
         m[id].addr == m'[id].addr && m[id].refCount == m'[id].refCount && m[id].inTried == m'[id].inTried
  }

  lemma ShapeKeepsTables(p: ParamsOk, m: Infos, m': Infos, news: Table, tried: Table, loose: set<int>)
    requires SameShape(m, m')
    ensures NewOk(p, m, news, loose) ==> NewOk(p, m', news, loose)
    ensures TriedOk(p, m, tried) ==> TriedOk(p, m', tried)
  {
    if NewOk(p, m, news, loose) {
      forall id | id in m' ensures RefsOk(p, m'[id], news, id, id in loose) {
        assert RefsOk(p, m[id], news, id, id in loose);
      }
    }
  }

  lemma ShapeKeepsIndexes(m: Infos, m': Infos, a: map<NetAddr, int>)
    requires SameShape(m, m')
    ensures AddrOk(m, a) ==> AddrOk(m', a)
    ensures TriedIds(m) == TriedIds(m') && NewIds(m) == NewIds(m')
  {
    forall id ensures id in m <==> id in m' { assert id in m.Keys <==> id in m'.Keys; }
    forall id ensures id in TriedIds(m) <==> id in TriedIds(m') { }
    forall id ensures id in NewIds(m) <==> id in NewIds(m') { }
  }

  /** Nothing but the new table depends on the reference count of an untried entry. */
  lemma RefCountIsPrivate(p: ParamsOk, m: Infos, id: int, n: int, v: seq<int>, a: map<NetAddr, int>, idCount: int, tried: Table)
    requires id in m && !m[id].inTried
    ensures var m' := m[id := m[id].(refCount := n)];
      && (RandomOk(m, v) ==> RandomOk(m', v))
      && (AddrOk(m, a) ==> AddrOk(m', a))
      && (InfoOk(m, idCount) ==> InfoOk(m', idCount))
      && (TriedOk(p, m, tried) ==> TriedOk(p, m', tried))
      && TriedIds(m') == TriedIds(m) && NewIds(m') == NewIds(m)
  {
    var m' := m[id := m[id].(refCount := n)];
    forall k ensures k in TriedIds(m) <==> k in TriedIds(m') { }
    forall k ensures k in NewIds(m) <==> k in NewIds(m') { }
  }

  /** An entry with a reference need not be called loose. */
  lemma TightenLoose(p: ParamsOk, m: Infos, news: Table, loose: set<int>, id: int)
    requires NewOk(p, m, news, loose + {id}) && (id in m ==> m[id].refCount >= 1 || m[id].inTried)
    ensures NewOk(p, m, news, loose)
  {
    forall k | k in m ensures RefsOk(p, m[k], news, k, k in loose) {
      assert RefsOk(p, m[k], news, k, k in loose + {id});
    }
  }

  /** More entries may be called loose than are. */
  lemma Loosen(p: ParamsOk, m: Infos, news: Table, loose: set<int>, looser: set<int>)
    requires NewOk(p, m, news, loose) && loose <= looser
    ensures NewOk(p, m, news, looser)
  {
    forall id | id in m ensures RefsOk(p, m[id], news, id, id in looser) {
      assert RefsOk(p, m[id], news, id, id in loose);
    }
  }

  // ----- new slots --------------------------------------------------------------

  /** The buckets of an entry after one slot was emptied. */
  lemma BucketsCleared(p: ParamsOk, news: Table, b: nat, i: nat, id: int, a: Service)
    requires Shaped(news, p.newBuckets, p.bucketSize) && b < p.newBuckets && i < p.bucketSize && id != -1
    requires news[b][i] == id ==> Position(p, a, true, b) == i
    ensures Buckets(p, SetSlot(news, b, i, -1), id, a) ==
            if news[b][i] == id then Buckets(p, news, id, a) - {b} else Buckets(p, news, id, a)
  {
  }

  /** Emptying a new slot and dropping the holder's count by one. */
  lemma ClearSlotKeepsNew(p: ParamsOk, m: Infos, news: Table, loose: set<int>, b: nat, i: nat)
    requires NewOk(p, m, news, loose) && b < p.newBuckets && i < p.bucketSize && news[b][i] != -1
    requires -1 !in m
    ensures var id := news[b][i];
      var info := m[id].(refCount := m[id].refCount - 1);
      && info.refCount >= 0
      && NewOk(p, m[id := info], SetSlot(news, b, i, -1), loose + {id})
  {
    var id := news[b][i];
    var news' := SetSlot(news, b, i, -1);
    var m' := m[id := m[id].(refCount := m[id].refCount - 1)];
    forall k | k in m' ensures RefsOk(p, m'[k], news', k, k in loose + {id}) {
      assert RefsOk(p, m[k], news, k, k in loose);
      BucketsCleared(p, news, b, i, k, m[k].addr);
      if k == id { assert b in Buckets(p, news, k, m[k].addr); }
    }
    assert RefsOk(p, m'[id], news', id, true);
  }

  /** The buckets of an entry after one empty slot was filled. */
  lemma BucketsFilled(p: ParamsOk, news: Table, b: nat, i: nat, holder: int, id: int, a: Service)
    requires Shaped(news, p.newBuckets, p.bucketSize) && b < p.newBuckets && i < p.bucketSize
    requires news[b][i] == -1 && id != -1 && holder == id ==> Position(p, a, true, b) == i
    ensures holder != id && id != -1 && news[b][i] == -1 ==> Buckets(p, SetSlot(news, b, i, holder), id, a) == Buckets(p, news, id, a)
    ensures holder == id && id != -1 && news[b][i] == -1 ==>
      b !in Buckets(p, news, id, a) && Buckets(p, SetSlot(news, b, i, holder), id, a) == Buckets(p, news, id, a) + {b}
  {
  }

  /** Filling an empty new slot of an entry and raising its count by one. */
  lemma FillSlotKeepsNew(p: ParamsOk, m: Infos, news: Table, loose: set<int>, id: int, b: nat)
    requires NewOk(p, m, news, loose) && b < p.newBuckets
    requires id in m && !m[id].inTried && m[id].refCount < NEW_BUCKETS_PER_ADDRESS
    requires news[b][Position(p, m[id].addr, true, b)] == -1
    requires -1 !in m
    ensures var info := m[id].(refCount := m[id].refCount + 1);
      NewOk(p, m[id := info], SetSlot(news, b, Position(p, m[id].addr, true, b), id), loose - {id})
  {
    var i := Position(p, m[id].addr, true, b);
    var news' := SetSlot(news, b, i, id);
    var m' := m[id := m[id].(refCount := m[id].refCount + 1)];
    forall k | k in m' ensures RefsOk(p, m'[k], news', k, k in loose - {id}) {
      assert RefsOk(p, m[k], news, k, k in loose);
      BucketsFilled(p, news, b, i, id, k, m[k].addr);
    }
  }

  /** An entry whose count is zero sits in no new slot. */
  lemma NoReferencesNoSlots(p: ParamsOk, m: Infos, news: Table, loose: set<int>, id: int)
    requires NewOk(p, m, news, loose) && id in m && m[id].refCount == 0 && id != -1
    ensures forall b, i :: 0 <= b < p.newBuckets && 0 <= i < p.bucketSize ==> news[b][i] != id
  {
    assert RefsOk(p, m[id], news, id, id in loose);
    forall b: nat, i | b < p.newBuckets && 0 <= i < p.bucketSize ensures news[b][i] != id {
      assert b !in Buckets(p, news, id, m[id].addr);
    }
  }

  // ----- entries coming and going ------------------------------------------------

  /** An entry without references can go without any table noticing. */
  lemma RemoveKeepsTables(p: ParamsOk, m: Infos, news: Table, tried: Table, loose: set<int>, id: int)
    requires NewOk(p, m, news, loose) && TriedOk(p, m, tried) && -1 !in m
    requires id in m && !m[id].inTried && m[id].refCount == 0
    ensures NewOk(p, m - {id}, news, loose - {id}) && TriedOk(p, m - {id}, tried)
  {
    NoReferencesNoSlots(p, m, news, loose, id);
    forall k | k in m - {id} ensures RefsOk(p, m[k], news, k, k in loose - {id}) {
      assert RefsOk(p, m[k], news, k, k in loose);
    }
  }

  lemma RemoveKeepsIndexes(m: Infos, a: map<NetAddr, int>, nTried: int, nNew: int, away: nat, id: int)
    requires id in m && !m[id].inTried
    ensures AddrOk(m, a) ==> AddrOk(m - {id}, a - {m[id].addr.net})
    ensures CountsOk(m, nTried, nNew, away) ==> CountsOk(m - {id}, nTried, nNew - 1, away)
  {
    assert TriedIds(m - {id}) == TriedIds(m);
    assert NewIds(m - {id}) == NewIds(m) - {id};
  }

  /** A new entry starts without references. */
  lemma CreateKeepsTables(p: ParamsOk, m: Infos, news: Table, tried: Table, loose: set<int>, id: int, info: Info)
    requires NewOk(p, m, news, loose) && TriedOk(p, m, tried)
    requires id !in m && id != -1 && !info.inTried && info.refCount == 0
    ensures NewOk(p, m[id := info], news, loose + {id}) && TriedOk(p, m[id := info], tried)
  {
    var m' := m[id := info];
    forall b, i | 0 <= b < p.newBuckets && 0 <= i < p.bucketSize ensures news[b][i] != id { }
    assert Buckets(p, news, id, info.addr) == {};
    forall k | k in m' ensures RefsOk(p, m'[k], news, k, k in loose + {id}) {
      if k != id { assert RefsOk(p, m[k], news, k, k in loose); }
    }
  }

  lemma CreateKeepsAddr(m: Infos, a: map<NetAddr, int>, id: int, info: Info)
    requires id !in m && AddrOk(m, a) && info.addr.net !in a
    ensures AddrOk(m[id := info], a[info.addr.net := id])
  {
  }

  lemma CreateCounts(m: Infos, nTried: int, nNew: int, id: int, info: Info)
    requires id !in m && !info.inTried && CountsOk(m, nTried, nNew, 0)
    ensures CountsOk(m[id := info], nTried, nNew + 1, 0)
  {
    assert TriedIds(m[id := info]) == TriedIds(m);
    assert NewIds(m[id := info]) == NewIds(m) + {id};
  }

  // ----- tried slots --------------------------------------------------------------

  /** An entry without references takes its empty tried slot. */
  lemma EnterTried(p: ParamsOk, m: Infos, news: Table, tried: Table, loose: set<int>, id: int)
    requires NewOk(p, m, news, loose) && TriedOk(p, m, tried) && -1 !in m
    requires id in m && !m[id].inTried && m[id].refCount == 0
    requires tried[TriedBucket(p, m[id].addr)][TriedPosition(p, m[id].addr)] == -1
    ensures var m' := m[id := m[id].(inTried := true)];
      var a := m[id].addr;
      NewOk(p, m', news, loose - {id}) && TriedOk(p, m', SetSlot(tried, TriedBucket(p, a), TriedPosition(p, a), id))
  {
    var m' := m[id := m[id].(inTried := true)];
    NoReferencesNoSlots(p, m, news, loose, id);
    forall k | k in m' ensures RefsOk(p, m'[k], news, k, k in loose - {id}) {
      assert RefsOk(p, m[k], news, k, k in loose);
    }
  }

  /** An entry leaves its tried slot and is loose until it gets a new slot. */
  lemma LeaveTried(p: ParamsOk, m: Infos, news: Table, tried: Table, loose: set<int>, id: int)
    requires NewOk(p, m, news, loose) && TriedOk(p, m, tried) && -1 !in m
    requires id in m && m[id].inTried
    ensures var m' := m[id := m[id].(inTried := false)];
      var a := m[id].addr;
      NewOk(p, m', news, loose + {id}) && TriedOk(p, m', SetSlot(tried, TriedBucket(p, a), TriedPosition(p, a), -1))
  {
    var m' := m[id := m[id].(inTried := false)];
    forall k | k in m' ensures RefsOk(p, m'[k], news, k, k in loose + {id}) {
      assert RefsOk(p, m[k], news, k, k in loose);
    }
  }

  lemma TriedFlagCounts(m: Infos, id: int, inTried: bool)
    requires id in m && m[id].inTried != inTried
    ensures var m' := m[id := m[id].(inTried := inTried)];
      var d := if inTried then 1 else -1;
      |TriedIds(m')| == |TriedIds(m)| + d && |NewIds(m')| == |NewIds(m)| - d
  {
    var m' := m[id := m[id].(inTried := inTried)];
    if inTried {
      assert TriedIds(m') == TriedIds(m) + {id} && NewIds(m') == NewIds(m) - {id};
    } else {
      assert TriedIds(m') == TriedIds(m) - {id} && NewIds(m') == NewIds(m) + {id};
    }
  }

  // ----- the random order ---------------------------------------------------------

  lemma SwapKeepsRandom(m: Infos, v: seq<int>, i: nat, j: nat)
    requires RandomOk(m, v) && i < |v| && j < |v| && i != j
    ensures v[i] in m && v[j] in m && v[i] != v[j]
    ensures var m' := m[v[i] := m[v[i]].(randomPos := j)][v[j] := m[v[j]].(randomPos := i)];
      RandomOk(m', v[i := v[j]][j := v[i]]) && SameShape(m, m')
  {
  }

  lemma PopKeepsRandom(m: Infos, v: seq<int>, id: int)
    requires RandomOk(m, v) && id in m && m[id].randomPos == |v| - 1
    ensures RandomOk(m - {id}, v[..|v| - 1])
  {
  }

  lemma PushKeepsRandom(m: Infos, v: seq<int>, id: int, info: Info)
    requires RandomOk(m, v) && id !in m && info.randomPos == |v|
    ensures RandomOk(m[id := info], v + [id])
  {
  }

  // ----- the collision set --------------------------------------------------------

  /** Occupied tried slots stay occupied. */
  ghost predicate StillOccupied(tried: Table, tried': Table) {
    && |tried| == |tried'|
    && forall b :: 0 <= b < |tried| ==>
         |tried[b]| == |tried'[b]| && forall i :: 0 <= i < |tried[b]| && tried[b][i] != -1 ==> tried'[b][i] != -1
  }

  lemma CollisionsCarry(p: ParamsOk, m: Infos, tried: Table, m': Infos, tried': Table,
                        collisions: set<int>, n: int, n': int)
    requires CollisionsOk(p, m, tried, collisions, n) && n <= n' && StillOccupied(tried, tried')
    requires forall id :: id in m' ==> id >= n || (id in m && m'[id].addr == m[id].addr)
    ensures CollisionsOk(p, m', tried', collisions, n')
  {
    forall id | id in collisions && id in m'
      ensures tried'[TriedBucket(p, m'[id].addr)][TriedPosition(p, m'[id].addr)] != -1
    {
      assert tried[TriedBucket(p, m[id].addr)][TriedPosition(p, m[id].addr)] != -1;
    }
  }

  // ----- consequences --------------------------------------------------------------

  /** Nothing is known twice or half: the random order lists exactly the known entries. */
  lemma RandomLength(m: Infos, v: seq<int>)
    requires RandomOk(m, v)
    ensures |v| == |m| && |m| == |TriedIds(m)| + |NewIds(m)|
  {
    SeqSetSize(v, m.Keys);
    assert m.Keys == TriedIds(m) + NewIds(m);
    assert TriedIds(m) !! NewIds(m);
  }

  lemma {:induction false} SeqSetSize(v: seq<int>, s: set<int>)
    requires forall i :: 0 <= i < |v| ==> v[i] in s
    requires forall i, j :: 0 <= i < j < |v| ==> v[i] != v[j]
    requires forall x :: x in s ==> x in v
    ensures |v| == |s|
  {
    if v == [] {
      assert forall x :: x in s ==> x in v;
      assert s == {};
    } else {
      var last := |v| - 1;
      SeqSetSize(v[..last], s - {v[last]});
    }
  }
}
