/** What is left of a stream once the entries without a slot are pruned: exactly the entries that stay, and a
    well-formed manager exactly if these have sound dates and share their addresses with nobody. */
module AddrSurvivors {
  import opened AddrTables
  import opened AddrState
  import opened AddrStore
  import opened AddrReload
  import AddrRoundTrip
  import opened AddrStreams

  // ----- pruning -----------------------------------------------------------------------------------------------

  predicate Doomed(info: Info) { !info.inTried && info.refCount == 0 }

  ghost function DoomedBelow(m: Infos, n: int): set<int> { set k | k in m && k < n && Doomed(m[k]) }

  ghost function NamesOf(m: Infos, ids: set<int>): set<NetAddr> { set k | k in ids && k in m :: m[k].addr.net }

  datatype Effect = Remaining | Unchanged | Nameless | Numbered | InLine | NewTable | TriedTable

  ghost predicate HasEffect(p: ParamsOk, t: State, n: int, loose: nat, u: State, effect: Effect) {
    match effect
    case Remaining => u.infos.Keys == t.infos.Keys - DoomedBelow(t.infos, n)
    case Unchanged => Moved(t.infos, u.infos)
    case Nameless => u.addrs == t.addrs - NamesOf(t.infos, DoomedBelow(t.infos, n))
    case Numbered =>
      u.nNew - |NewIds(u.infos)| == t.nNew - |NewIds(t.infos)| && TriedIds(u.infos) == TriedIds(t.infos)
    case InLine => RandomOk(u.infos, u.random)
    case NewTable => NewOk(p, u.infos, u.news, Below(loose))
    case TriedTable => TriedOk(p, u.infos, u.tried)
  }

  /** u is t without the doomed entries below n.  Closed to the solver. */
  ghost predicate PrunedTo(p: ParamsOk, t: State, n: int, loose: nat, u: State) {
    && u == t.(infos := u.infos, addrs := u.addrs, random := u.random, nNew := u.nNew)
    && forall effect :: HasEffect(p, t, n, loose, u, effect)
  }

  lemma OpenPruned(p: ParamsOk, t: State, n: int, loose: nat, u: State)
    requires PrunedTo(p, t, n, loose, u)
    ensures u.infos.Keys == t.infos.Keys - DoomedBelow(t.infos, n) && Moved(t.infos, u.infos)
    ensures u.addrs == t.addrs - NamesOf(t.infos, DoomedBelow(t.infos, n))
    ensures u.nNew - |NewIds(u.infos)| == t.nNew - |NewIds(t.infos)| && TriedIds(u.infos) == TriedIds(t.infos)
    ensures RandomOk(u.infos, u.random) && NewOk(p, u.infos, u.news, Below(loose)) && TriedOk(p, u.infos, u.tried)
  {
    assert HasEffect(p, t, n, loose, u, Remaining) && HasEffect(p, t, n, loose, u, Unchanged);
    assert HasEffect(p, t, n, loose, u, Nameless) && HasEffect(p, t, n, loose, u, Numbered);
    assert HasEffect(p, t, n, loose, u, InLine) && HasEffect(p, t, n, loose, u, NewTable);
    assert HasEffect(p, t, n, loose, u, TriedTable);
  }

  lemma ClosePruned(p: ParamsOk, t: State, n: int, loose: nat, u: State)
    requires u == t.(infos := u.infos, addrs := u.addrs, random := u.random, nNew := u.nNew)
    requires u.infos.Keys == t.infos.Keys - DoomedBelow(t.infos, n) && Moved(t.infos, u.infos)
    requires u.addrs == t.addrs - NamesOf(t.infos, DoomedBelow(t.infos, n))
    requires u.nNew - |NewIds(u.infos)| == t.nNew - |NewIds(t.infos)| && TriedIds(u.infos) == TriedIds(t.infos)
    requires RandomOk(u.infos, u.random) && NewOk(p, u.infos, u.news, Below(loose)) && TriedOk(p, u.infos, u.tried)
    ensures PrunedTo(p, t, n, loose, u)
  {
  }

  // ----- deleting one entry, whatever the address index says -------------------------------------------------------

  /** The tables after an entry without references is gone. */
  lemma DeletedTables(p: ParamsOk, s: State, id: int, n: nat, u: State)
    requires RandomOk(s.infos, s.random) && NewOk(p, s.infos, s.news, Below(n)) && TriedOk(p, s.infos, s.tried)
    requires -1 !in s.infos && CanDelete(s, id) && u == Delete(s, id)
    ensures NewOk(p, u.infos, u.news, Below(n)) && TriedOk(p, u.infos, u.tried)
  {
    var m := DeletedFrom(s, id);
    RemovedTables(p, s.infos, m, s.news, s.tried, n, id);
  }

  lemma DeletedFrom(s: State, id: int) returns (m: Infos)
    requires RandomOk(s.infos, s.random) && -1 !in s.infos && CanDelete(s, id)
    ensures SameShape(s.infos, m) && -1 !in m && id in m && Doomed(m[id])
    ensures var u := Delete(s, id); u.infos == m - {id} && u.news == s.news && u.tried == s.tried
  {
    var i, j := s.infos[id].randomPos, |s.random| - 1;
    SwapShape(s, i, j);
    m := SwapRandom(s, i, j).infos;
    assert id in m.Keys;
  }

  lemma RemovedTables(p: ParamsOk, m: Infos, m': Infos, news: Table, tried: Table, n: nat, id: int)
    requires NewOk(p, m, news, Below(n)) && TriedOk(p, m, tried) && SameShape(m, m') && -1 !in m'
    requires id in m' && Doomed(m'[id])
    ensures NewOk(p, m' - {id}, news, Below(n)) && TriedOk(p, m' - {id}, tried)
  {
    ShapeKeepsTables(p, m, m', news, tried, Below(n));
    RemoveKeepsTables(p, m', news, tried, Below(n), id);
    Loosen(p, m' - {id}, news, Below(n) - {id}, Below(n));
  }

  lemma SwapShape(s: State, i: int, j: int)
    requires RandomOk(s.infos, s.random) && CanSwap(s, i, j)
    ensures SameShape(s.infos, SwapRandom(s, i, j).infos) && Moved(s.infos, SwapRandom(s, i, j).infos)
    ensures -1 !in s.infos ==> -1 !in SwapRandom(s, i, j).infos
  {
    if i != j {
      SwapInOrder(s, i, j);
    }
  }

  lemma DeletedEntries(s: State, id: int, u: State)
    requires RandomOk(s.infos, s.random) && CanDelete(s, id) && u == Delete(s, id)
    ensures RandomOk(u.infos, u.random) && u.infos.Keys == s.infos.Keys - {id} && Moved(s.infos, u.infos)
    ensures u.addrs == s.addrs - {s.infos[id].addr.net}
    ensures u == s.(infos := u.infos, addrs := u.addrs, random := u.random, nNew := s.nNew - 1)
  {
    var i, j := s.infos[id].randomPos, |s.random| - 1;
    DeleteRandom(s, id);
    SwapShape(s, i, j);
    DropLastStats(s, SwapRandom(s, i, j), id);
    DeletedRest(s, id, u);
  }

  lemma DeletedRest(s: State, id: int, u: State)
    requires CanDelete(s, id) && u == Delete(s, id)
    ensures u.addrs == s.addrs - {s.infos[id].addr.net}
    ensures u == s.(infos := u.infos, addrs := u.addrs, random := u.random, nNew := s.nNew - 1)
  {
  }

  lemma DeletedCounts(m: Infos, m': Infos, id: int)
    requires id in m && !m[id].inTried && m'.Keys == m.Keys - {id} && Moved(m, m')
    ensures |NewIds(m')| == |NewIds(m)| - 1 && TriedIds(m') == TriedIds(m)
  {
    forall k ensures k in m' <==> k in m && k != id {
      assert k in m'.Keys <==> k in m.Keys - {id};
    }
    assert NewIds(m') == NewIds(m) - {id};
    assert TriedIds(m') == TriedIds(m);
  }

  // ----- the pruning loop ---------------------------------------------------------------------------------------------

  lemma DoomedStep(m: Infos, n: int)
    ensures DoomedBelow(m, n + 1) == DoomedBelow(m, n) + if n in m && Doomed(m[n]) then {n} else {}
  {
  }

  lemma NamesStep(m: Infos, ids: set<int>, id: int)
    requires id in m
    ensures NamesOf(m, ids + {id}) == NamesOf(m, ids) + {m[id].addr.net}
  {
  }

  lemma HasName(m: Infos, ids: set<int>, id: int)
    ensures id in ids && id in m ==> m[id].addr.net in NamesOf(m, ids)
  {
  }

  lemma MovedTwice(a: Infos, b: Infos, c: Infos)
    requires Moved(a, b) && Moved(b, c)
    ensures Moved(a, c)
  {
  }

  lemma StillDoomed(p: ParamsOk, t: State, n: int, loose: nat, s: State)
    requires PrunedTo(p, t, n, loose, s)
    ensures n in s.infos <==> n in t.infos
    ensures n in s.infos ==> s.infos[n].addr == t.infos[n].addr && (CanDelete(s, n) <==> Doomed(t.infos[n]))
  {
    OpenPruned(p, t, n, loose, s);
    assert n in s.infos.Keys <==> n in t.infos.Keys - DoomedBelow(t.infos, n);
    if n in s.infos {
      MayDelete(s, n);
    }
  }

  /** Entries, addresses and counters when one more entry is deleted. */
  lemma DeletedEffects(p: ParamsOk, t: State, n: int, loose: nat, s: State, u: State)
    requires PrunedTo(p, t, n, loose, s) && n in s.infos && CanDelete(s, n) && u == Delete(s, n)
    ensures u == t.(infos := u.infos, addrs := u.addrs, random := u.random, nNew := u.nNew)
    ensures u.infos.Keys == t.infos.Keys - DoomedBelow(t.infos, n + 1) && Moved(t.infos, u.infos)
    ensures u.addrs == t.addrs - NamesOf(t.infos, DoomedBelow(t.infos, n + 1))
    ensures u.nNew - |NewIds(u.infos)| == t.nNew - |NewIds(t.infos)| && TriedIds(u.infos) == TriedIds(t.infos)
    ensures RandomOk(u.infos, u.random)
  {
    StillDoomed(p, t, n, loose, s);
    OpenPruned(p, t, n, loose, s);
    DeletedEntries(s, n, u);
    DeletedCounts(s.infos, u.infos, n);
    MovedTwice(t.infos, s.infos, u.infos);
    DeletedNames(t.infos, t.addrs, n, s.infos.Keys, s.addrs, u.infos.Keys, u.addrs);
  }

  lemma DeletedNames(m: Infos, a: map<NetAddr, int>, n: int, keys: set<int>, names: map<NetAddr, int>, keys': set<int>,
                     names': map<NetAddr, int>)
    requires n in m && Doomed(m[n]) && keys == m.Keys - DoomedBelow(m, n) && keys' == keys - {n}
    requires names == a - NamesOf(m, DoomedBelow(m, n)) && names' == names - {m[n].addr.net}
    ensures keys' == m.Keys - DoomedBelow(m, n + 1) && names' == a - NamesOf(m, DoomedBelow(m, n + 1))
  {
    DoomedStep(m, n);
    NamesStep(m, DoomedBelow(m, n), n);
  }

  lemma DeletedOrder(p: ParamsOk, t: State, n: int, loose: nat, s: State, u: State)
    requires PrunedTo(p, t, n, loose, s) && -1 !in t.infos && n in s.infos && CanDelete(s, n) && u == Delete(s, n)
    ensures NewOk(p, u.infos, u.news, Below(loose)) && TriedOk(p, u.infos, u.tried)
  {
    OpenPruned(p, t, n, loose, s);
    assert -1 !in s.infos by {
      assert -1 !in s.infos.Keys;
    }
    DeletedTables(p, s, n, loose, u);
  }

  lemma DeletedPrunes(p: ParamsOk, t: State, n: int, loose: nat, s: State, u: State)
    requires PrunedTo(p, t, n, loose, s) && -1 !in t.infos && n in s.infos && CanDelete(s, n) && u == Delete(s, n)
    ensures PrunedTo(p, t, n + 1, loose, u)
  {
    DeletedEffects(p, t, n, loose, s, u);
    DeletedOrder(p, t, n, loose, s, u);
    ClosePruned(p, t, n + 1, loose, u);
  }

  lemma KeptPrunes(p: ParamsOk, t: State, n: int, loose: nat, s: State)
    requires PrunedTo(p, t, n, loose, s) && !(n in s.infos && CanDelete(s, n))
    ensures PrunedTo(p, t, n + 1, loose, s)
  {
    StillDoomed(p, t, n, loose, s);
    OpenPruned(p, t, n, loose, s);
    DoomedStep(t.infos, n);
    assert DoomedBelow(t.infos, n + 1) == DoomedBelow(t.infos, n);
    ClosePruned(p, t, n + 1, loose, s);
  }

  lemma NothingPruned(p: ParamsOk, t: State, loose: nat)
    requires RandomOk(t.infos, t.random) && NewOk(p, t.infos, t.news, Below(loose)) && TriedOk(p, t.infos, t.tried)
    requires forall k :: k in t.infos ==> k >= 0
    ensures PrunedTo(p, t, 0, loose, t)
  {
    assert DoomedBelow(t.infos, 0) == {};
    assert NamesOf(t.infos, {}) == {};
    ClosePruned(p, t, 0, loose, t);
  }

  lemma {:induction false} PrunedIs(p: ParamsOk, t: State, n: nat, loose: nat) returns (u: State)
    requires PrunedTo(p, t, 0, loose, t) && -1 !in t.infos
    ensures u == Pruned(t, n) && PrunedTo(p, t, n, loose, u)
    decreases n
  {
    if n == 0 {
      u := t;
    } else {
      var s := PrunedIs(p, t, n - 1, loose);
      u := PrunedOne(s, n - 1);
      if n - 1 in s.infos && CanDelete(s, n - 1) {
        DeletedPrunes(p, t, n - 1, loose, s, u);
      } else {
        KeptPrunes(p, t, n - 1, loose, s);
      }
    }
  }

  // ----- which entries stay ---------------------------------------------------------------------------------------------

  /** The entries that are known after reading and pruning. */
  ghost predicate Stays(p: ParamsOk, d: Disk, e: nat)
    requires e < Total(d)
  {
    if e < |d.news| then NewStays(p, d, e) else TriedStays(p, d, e - |d.news|)
  }

  lemma DoomedIff(p: ParamsOk, d: Disk, l: seq<nat>, t: State, k: int)
    requires l == Ids(p, d, |d.trieds|) && t == LoadRows(p, d, |d.slots|) && HasRead(p, d, l, t) && 0 <= k < |l|
    ensures k in t.infos && (Doomed(t.infos[k]) <==> !Stays(p, d, l[k]))
  {
    OpenRead(p, d, l, t);
    NewStaysIff(p, d);
    IdsAre(p, d, |d.trieds|);
    assert GetsId(p, d, l[k]) by {
      assert l[k] in l;
    }
  }

  /** What Unserialize leaves: exactly the entries that stay, with everything that is written, in the order of
      the stream. */
  ghost predicate Survived(p: ParamsOk, d: Disk, l: seq<nat>, u: State) {
    && l == Ids(p, d, |d.trieds|)
    && (forall k :: k in u.infos <==> 0 <= k < |l| && Stays(p, d, l[k]))
    && (forall k :: k in u.infos ==> From(At(d, l[k]), l[k] >= |d.news|, u.infos[k]))
  }

  lemma LoadedIs(p: ParamsOk, d: Disk) returns (t: State, u: State, l: seq<nat>)
    ensures t == LoadRows(p, d, |d.slots|) && u == Loaded(p, d) && l == Ids(p, d, |d.trieds|) && t.idCount == |l|
    ensures HasRead(p, d, l, t) && PrunedTo(p, t, |l|, |l|, u) && Counting(p, d, |d.trieds|, t)
  {
    l := Ids(p, d, |d.trieds|);
    t := RowsHaveRead(p, d, |d.slots|);
    var s := TriedsHaveRead(p, d, |d.trieds|);
    OpenRead(p, d, l, t);
    NothingPruned(p, t, |l|);
    u := PrunedIs(p, t, |l|, |l|);
  }

  lemma LoadedSurvived(p: ParamsOk, d: Disk) returns (l: seq<nat>)
    ensures Survived(p, d, l, Loaded(p, d))
  {
    var t, u;
    t, u, l := LoadedIs(p, d);
    forall k
      ensures k in u.infos <==> 0 <= k < |l| && Stays(p, d, l[k])
      ensures k in u.infos ==> From(At(d, l[k]), l[k] >= |d.news|, u.infos[k])
    {
      OneSurvived(p, d, l, t, u, k);
    }
  }

  lemma OneSurvived(p: ParamsOk, d: Disk, l: seq<nat>, t: State, u: State, k: int)
    requires l == Ids(p, d, |d.trieds|) && t == LoadRows(p, d, |d.slots|) && HasRead(p, d, l, t) && PrunedTo(p, t, |l|, |l|, u)
    ensures k in u.infos <==> 0 <= k < |l| && Stays(p, d, l[k])
    ensures k in u.infos ==> From(At(d, l[k]), l[k] >= |d.news|, u.infos[k])
  {
    OpenRead(p, d, l, t);
    OpenPruned(p, t, |l|, |l|, u);
    assert k in u.infos.Keys <==> k in t.infos.Keys - DoomedBelow(t.infos, |l|);
    if 0 <= k < |l| {
      DoomedIff(p, d, l, t, k);
    }
  }

  // ----- when the result is well-formed ----------------------------------------------------------------------------------

  /** An entry that stays has no negative date, and none that is zero if it is tried. */
  ghost predicate DatesSound(p: ParamsOk, d: Disk) {
    forall e: nat :: e < Total(d) && Stays(p, d, e) ==>
      At(d, e).lastSuccess >= 0 && (e >= |d.news| ==> At(d, e).lastSuccess != 0)
  }

  /** An entry that stays shares its network address with no other entry that gets an id. */
  ghost predicate NamesSound(p: ParamsOk, d: Disk) {
    forall e: nat, f: nat :: e < Total(d) && f < Total(d) && e != f && Stays(p, d, e) && GetsId(p, d, f) ==>
      At(d, e).addr.net != At(d, f).addr.net
  }

  lemma SlotLeft(p: ParamsOk, d: Disk, t: State, u: State, l: seq<nat>, k: int)
    requires HasRead(p, d, l, t) && PrunedTo(p, t, |l|, |l|, u) && k in u.infos && !u.infos[k].inTried
    ensures u.infos[k].refCount >= 1
  {
    OpenRead(p, d, l, t);
    OpenPruned(p, t, |l|, |l|, u);
    assert k in u.infos.Keys;
    assert RefsOk(p, u.infos[k], u.news, k, k in Below(|l|));
  }

  /** Both tables of the result are always in order. */
  lemma LoadedTables(p: ParamsOk, d: Disk, t: State, u: State, l: seq<nat>)
    requires HasRead(p, d, l, t) && PrunedTo(p, t, |l|, |l|, u)
    ensures RandomOk(u.infos, u.random) && TriedOk(p, u.infos, u.tried) && NewOk(p, u.infos, u.news, {})
  {
    OpenPruned(p, t, |l|, |l|, u);
    forall k | k in u.infos && !u.infos[k].inTried ensures u.infos[k].refCount >= 1 {
      SlotLeft(p, d, t, u, l, k);
    }
    AddrRoundTrip.NoneLoose(p, u.infos, u.news, Below(|l|));
  }

  /** So are its counters. */
  lemma LoadedCounts(p: ParamsOk, d: Disk, t: State, u: State, l: seq<nat>)
    requires l == Ids(p, d, |d.trieds|) && HasRead(p, d, l, t) && PrunedTo(p, t, |l|, |l|, u) && Counting(p, d, |d.trieds|, t)
    ensures CountsOk(u.infos, u.nTried, u.nNew, 0) && u.collisions == {} && u.idCount == |l|
  {
    ReadCounts(p, d, t, l);
    OpenPruned(p, t, |l|, |l|, u);
  }

  lemma ReadCounts(p: ParamsOk, d: Disk, t: State, l: seq<nat>)
    requires l == Ids(p, d, |d.trieds|) && HasRead(p, d, l, t)
    ensures |NewIds(t.infos)| == |d.news| && |TriedIds(t.infos)| == |l| - |d.news|
  {
    OpenRead(p, d, l, t);
    KnownCounts(d, l, t.infos);
  }

  lemma KnownCounts(d: Disk, l: seq<nat>, m: Infos)
    requires KnownAs(d, l, m) && |l| >= |d.news| && forall k :: 0 <= k < |l| ==> (l[k] >= |d.news| <==> k >= |d.news|)
    ensures |NewIds(m)| == |d.news| && |TriedIds(m)| == |l| - |d.news|
  {
    AddrRoundTrip.FlagCounts(m, |d.news|, |l|);
  }

  lemma DatesIff(p: ParamsOk, d: Disk, l: seq<nat>, u: State)
    requires Survived(p, d, l, u)
    ensures InfoOk(u.infos, |l|) <==> DatesSound(p, d)
  {
    IdsAre(p, d, |d.trieds|);
    if InfoOk(u.infos, |l|) {
      forall e: nat | e < Total(d) && Stays(p, d, e)
        ensures At(d, e).lastSuccess >= 0 && (e >= |d.news| ==> At(d, e).lastSuccess != 0)
      {
        assert GetsId(p, d, e);
        var k :| 0 <= k < |l| && l[k] == e;
      }
    }
  }

  /** After pruning, an address is known exactly if no entry with it was pruned. */
  lemma NamesIff(p: ParamsOk, d: Disk, t: State, u: State, l: seq<nat>)
    requires l == Ids(p, d, |d.trieds|) && t == LoadRows(p, d, |d.slots|)
    requires HasRead(p, d, l, t) && PrunedTo(p, t, |l|, |l|, u) && Survived(p, d, l, u)
    ensures AddrOk(u.infos, u.addrs) <==> NamesSound(p, d)
  {
    if AddrOk(u.infos, u.addrs) {
      NamesNeeded(p, d, t, u, l);
    }
    if NamesSound(p, d) {
      NamesSuffice(p, d, t, u, l);
    }
  }

  lemma NamesNeeded(p: ParamsOk, d: Disk, t: State, u: State, l: seq<nat>)
    requires l == Ids(p, d, |d.trieds|) && t == LoadRows(p, d, |d.slots|) && HasRead(p, d, l, t)
    requires PrunedTo(p, t, |l|, |l|, u) && Survived(p, d, l, u) && AddrOk(u.infos, u.addrs)
    ensures NamesSound(p, d)
  {
    IdsAre(p, d, |d.trieds|);
    forall e: nat, f: nat | e < Total(d) && f < Total(d) && e != f && Stays(p, d, e) && GetsId(p, d, f)
      ensures At(d, e).addr.net != At(d, f).addr.net
    {
      assert GetsId(p, d, e);
      var j :| 0 <= j < |l| && l[j] == e;
      var k :| 0 <= k < |l| && l[k] == f;
      NamesDiffer(p, d, t, u, l, j, k);
    }
  }

  lemma NamesDiffer(p: ParamsOk, d: Disk, t: State, u: State, l: seq<nat>, j: int, k: int)
    requires l == Ids(p, d, |d.trieds|) && t == LoadRows(p, d, |d.slots|) && HasRead(p, d, l, t)
    requires PrunedTo(p, t, |l|, |l|, u) && Survived(p, d, l, u) && AddrOk(u.infos, u.addrs)
    requires 0 <= j < |l| && 0 <= k < |l| && j != k && Stays(p, d, l[j])
    ensures At(d, l[j]).addr.net != At(d, l[k]).addr.net
  {
    OpenRead(p, d, l, t);
    OpenPruned(p, t, |l|, |l|, u);
    DoomedIff(p, d, l, t, k);
    assert u.addrs[u.infos[j].addr.net] == j;
    HasName(t.infos, DoomedBelow(t.infos, |l|), k);
  }

  lemma NamesSuffice(p: ParamsOk, d: Disk, t: State, u: State, l: seq<nat>)
    requires l == Ids(p, d, |d.trieds|) && t == LoadRows(p, d, |d.slots|) && HasRead(p, d, l, t)
    requires PrunedTo(p, t, |l|, |l|, u) && Survived(p, d, l, u) && NamesSound(p, d)
    ensures AddrOk(u.infos, u.addrs)
  {
    IdsAre(p, d, |d.trieds|);
    OpenRead(p, d, l, t);
    OpenPruned(p, t, |l|, |l|, u);
    forall k | k in u.infos ensures u.infos[k].addr.net in u.addrs && u.addrs[u.infos[k].addr.net] == k {
      AloneKeepsName(p, d, t, u, l, k);
    }
    forall n | n in u.addrs ensures u.addrs[n] in u.infos && u.infos[u.addrs[n]].addr.net == n {
      HasName(t.infos, DoomedBelow(t.infos, |l|), t.addrs[n]);
      assert t.addrs[n] in u.infos.Keys;
    }
  }

  lemma AloneKeepsName(p: ParamsOk, d: Disk, t: State, u: State, l: seq<nat>, k: int)
    requires l == Ids(p, d, |d.trieds|) && t == LoadRows(p, d, |d.slots|) && HasRead(p, d, l, t)
    requires PrunedTo(p, t, |l|, |l|, u) && Survived(p, d, l, u) && NamesSound(p, d) && k in u.infos
    ensures u.infos[k].addr.net in u.addrs && u.addrs[u.infos[k].addr.net] == k
  {
    IdsAre(p, d, |d.trieds|);
    OpenRead(p, d, l, t);
    OpenPruned(p, t, |l|, |l|, u);
    var n := u.infos[k].addr.net;
    forall j | j in t.infos && j != k ensures t.infos[j].addr.net != n {
      assert GetsId(p, d, l[j]) by {
        assert l[j] in l;
      }
      assert l[j] != l[k];
    }
    assert n !in NamesOf(t.infos, DoomedBelow(t.infos, |l|)) by {
      DoomedIff(p, d, l, t, k);
    }
  }

  /** For every stream and all parameters: Unserialize leaves a well-formed manager if and only if the entries
      that stay have sound dates and share their addresses with no other entry that gets an id. */
  lemma LoadedValidIff(p: ParamsOk, d: Disk)
    ensures Valid(p, Loaded(p, d)) <==> DatesSound(p, d) && NamesSound(p, d)
  {
    var t, u, l := LoadedIs(p, d);
    var l' := LoadedSurvived(p, d);
    LoadedTables(p, d, t, u, l);
    LoadedCounts(p, d, t, u, l);
    DatesIff(p, d, l, u);
    NamesIff(p, d, t, u, l);
    if Valid(p, u) {
      Unfold(p, u, {}, 0);
    }
    if InfoOk(u.infos, |l|) && AddrOk(u.infos, u.addrs) {
      Fold(p, u, {}, 0);
    }
  }

  /** A stream that is never read into a well-formed manager: two new entries of one network address. */
  lemma SharedAddressBreaks(p: ParamsOk, r: Stored, r': Stored)
    requires r.addr.net == r'.addr.net
    ensures !Valid(p, Loaded(p, Disk(1, [r, r'], [], [])))
  {
    var d := Disk(1, [r, r'], [], []);
    LoadedValidIff(p, d);
    assert Stays(p, d, 0) && GetsId(p, d, 1);
    assert At(d, 0) == r && At(d, 1) == r';
  }

  // ----- a written manager, read with other parameters ----------------------------------------------------------------------

  /** The entries of a stream that was written are those of the manager. */
  lemma SavedEntries(p: ParamsOk, s: State) returns (l: seq<int>)
    requires Core(p, s, {}, 0)
    ensures Reload(p, s, l)
  {
    l := OrderIs(p, s);
    AddrRoundTrip.ListsAre(p, s, l);
  }

  ghost predicate Reload(p: ParamsOk, s: State, l: seq<int>)
    requires Core(p, s, {}, 0)
  {
    && Written(p, s, l, Saved(p, s)) && Total(Saved(p, s)) == |l|
    && forall e :: 0 <= e < |l| ==> At(Saved(p, s), e) == Stash(s.infos[l[e]])
  }

  lemma NameOf(p: ParamsOk, s: State, id: int)
    requires Core(p, s, {}, 0) && id in s.infos
    ensures s.infos[id].addr.net in s.addrs && s.addrs[s.infos[id].addr.net] == id
  {
    Unfold(p, s, {}, 0);
  }

  lemma SavedSound(p: ParamsOk, s: State, q: ParamsOk)
    requires Core(p, s, {}, 0)
    ensures DatesSound(q, Saved(p, s)) && NamesSound(q, Saved(p, s))
  {
    var d := Saved(p, s);
    var l := SavedEntries(p, s);
    forall e: nat | e < Total(d) ensures At(d, e).lastSuccess >= 0 && (e >= |d.news| ==> At(d, e).lastSuccess != 0) {
      DatesOf(p, s, {}, 0, l[e]);
    }
    forall e: nat, f: nat | e < Total(d) && f < Total(d) && e != f ensures At(d, e).addr.net != At(d, f).addr.net {
      assert l[e] != l[f];
      NameOf(p, s, l[e]);
      NameOf(p, s, l[f]);
    }
  }

  /** The format survives changed parameters: what one manager writes, another with any table sizes and hashes
      reads into a well-formed state that holds exactly the entries that stay. */
  lemma ChangedParameters(p: ParamsOk, s: State, q: ParamsOk) returns (l: seq<nat>)
    requires Core(p, s, {}, 0)
    ensures Valid(q, Loaded(q, Saved(p, s))) && Survived(q, Saved(p, s), l, Loaded(q, Saved(p, s)))
  {
    SavedSound(p, s, q);
    LoadedValidIff(q, Saved(p, s));
    l := LoadedSurvived(q, Saved(p, s));
  }

  // ----- which entries of a written manager stay --------------------------------------------------------------------------------

  /** The first of the n first indexes of bucket b whose entry belongs into slot i, or -1. */
  function First(q: ParamsOk, d: Disk, b: nat, n: nat, i: nat): int
    requires b < |d.slots| && n <= |d.slots[b]|
    decreases n
  {
    if n == 0 then -1
    else
      var w := First(q, d, b, n - 1, i);
      if w == -1 && Claims(q, d, b, d.slots[b][n - 1], i) then d.slots[b][n - 1] else w
  }

  /** No entry listed in bucket b has all its references yet. */
  ghost predicate RowRoom(q: ParamsOk, d: Disk, b: nat)
    requires b < |d.slots|
  {
    forall m :: 0 <= m < |d.slots[b]| && 0 <= d.slots[b][m] < |d.news| ==> Count(q, d, b, d.slots[b][m]) < NEW_BUCKETS_PER_ADDRESS
  }

  lemma {:induction false} WinnerIsFirst(q: ParamsOk, d: Disk, b: nat, n: nat, i: nat)
    requires b < |d.slots| && n <= |d.slots[b]| && RowRoom(q, d, b)
    ensures Winner(q, d, b, n, i) == First(q, d, b, n, i)
    decreases n
  {
    if n > 0 {
      WinnerIsFirst(q, d, b, n - 1, i);
    }
  }

  lemma {:induction false} WinnerListed(q: ParamsOk, d: Disk, b: nat, n: nat, i: nat)
    requires b < |d.slots| && n <= |d.slots[b]| && Winner(q, d, b, n, i) != -1
    ensures Winner(q, d, b, n, i) in d.slots[b]
    decreases n
  {
    if Winner(q, d, b, n - 1, i) != -1 {
      WinnerListed(q, d, b, n - 1, i);
    }
  }

  /** The buckets below b that list index k. */
  ghost function RowsWith(d: Disk, b: nat, k: int): set<nat>
    requires b <= |d.slots|
  {
    set c: nat | c < b && k in d.slots[c]
  }

  lemma {:induction false} CountWritten(q: ParamsOk, d: Disk, b: nat, k: nat)
    requires b <= |d.slots| && k < |d.news|
    ensures Count(q, d, b, k) <= |RowsWith(d, b, k)|
    decreases b
  {
    if b > 0 {
      CountWritten(q, d, b - 1, k);
      var i := Position(q, d.news[k].addr, true, b - 1);
      if Winner(q, d, b - 1, |d.slots[b - 1]|, i) == k {
        WinnerListed(q, d, b - 1, |d.slots[b - 1]|, i);
        assert RowsWith(d, b, k) == RowsWith(d, b - 1, k) + {b - 1};
      } else {
        assert RowsWith(d, b, k) == RowsWith(d, b - 1, k) || RowsWith(d, b, k) == RowsWith(d, b - 1, k) + {b - 1};
      }
    }
  }

  lemma {:induction false} OccupiedHolds(row: seq<int>, n: nat, x: int) returns (j: nat)
    requires n <= |row| && x in AddrRoundTrip.Occupied(row, n)
    ensures j < n && row[j] == x != -1
    decreases n
  {
    if row[n - 1] == x && x != -1 {
      j := n - 1;
    } else {
      j := OccupiedHolds(row, n - 1, x);
    }
  }

  /** A bucket that lists an index is one of the entry's. */
  lemma ListedInBucket(p: ParamsOk, s: State, l: seq<int>, c: nat, k: nat)
    requires Core(p, s, {}, 0) && AddrRoundTrip.Goal(p, s, l, AddrRoundTrip.Goals(p, s)) && k < |l| && l[k] in s.infos
    requires c < p.newBuckets && k in Saved(p, s).slots[c]
    ensures c in Buckets(p, s.news, l[k], s.infos[l[k]].addr)
  {
    AddrRoundTrip.SlotsAre(p, s);
    var j := OccupiedHolds(AddrRoundTrip.Goals(p, s)[c], p.bucketSize, k);
    HolderPlace(p, s, c, j);
  }

  lemma HolderPlace(p: ParamsOk, s: State, c: nat, j: nat)
    requires Core(p, s, {}, 0) && c < p.newBuckets && j < p.bucketSize && s.news[c][j] != -1
    ensures s.news[c][j] in s.infos && Position(p, s.infos[s.news[c][j]].addr, true, c) == j
  {
    Unfold(p, s, {}, 0);
  }

  /** Reading a written manager, no index is refused because its entry has all its references. */
  lemma SavedRoom(p: ParamsOk, s: State, q: ParamsOk, b: nat)
    requires Core(p, s, {}, 0) && b < |Saved(p, s).slots|
    ensures RowRoom(q, Saved(p, s), b)
  {
    var d := Saved(p, s);
    var l := OrderIs(p, s);
    AddrRoundTrip.GoalIs(p, s, l);
    AddrRoundTrip.ListsAre(p, s, l);
    forall m | 0 <= m < |d.slots[b]| && 0 <= d.slots[b][m] < |d.news|
      ensures Count(q, d, b, d.slots[b][m]) < NEW_BUCKETS_PER_ADDRESS
    {
      OneRoom(p, s, q, l, b, d.slots[b][m]);
    }
  }

  lemma OneRoom(p: ParamsOk, s: State, q: ParamsOk, l: seq<int>, b: nat, k: nat)
    requires Core(p, s, {}, 0) && AddrRoundTrip.Goal(p, s, l, AddrRoundTrip.Goals(p, s)) && k < |l| && l[k] in s.infos
    requires b < |Saved(p, s).slots| && k < |Saved(p, s).news| && k in Saved(p, s).slots[b]
    ensures Count(q, Saved(p, s), b, k) < NEW_BUCKETS_PER_ADDRESS
  {
    var d := Saved(p, s);
    var all := Buckets(p, s.news, l[k], s.infos[l[k]].addr);
    CountWritten(q, d, b, k);
    forall c | c in RowsWith(d, b, k) + {b} ensures c in all {
      ListedInBucket(p, s, l, c, k);
    }
    SmallerSet(RowsWith(d, b, k), b, all);
    RefsOf(p, s, {}, 0, l[k]);
  }

  lemma SmallerSet(a: set<nat>, b: nat, all: set<nat>)
    requires b !in a && a + {b} <= all
    ensures |a| < |all|
  {
    assert |a + {b}| == |a| + 1;
    assert all == (a + {b}) + (all - (a + {b}));
  }

  /** Entry k gets its slot in bucket c. */
  ghost predicate Wins(q: ParamsOk, d: Disk, c: nat, k: nat)
    requires c < |d.slots| && k < |d.news|
  {
    Winner(q, d, c, |d.slots[c]|, Position(q, d.news[k].addr, true, c)) == k
  }

  lemma CountStep(q: ParamsOk, d: Disk, b: nat, k: nat)
    requires b < |d.slots| && k < |d.news|
    ensures Count(q, d, b + 1, k) == Count(q, d, b, k) + if Wins(q, d, b, k) then 1 else 0
  {
  }

  lemma {:induction false} CountPositive(q: ParamsOk, d: Disk, b: nat, k: nat)
    requires b <= |d.slots| && k < |d.news|
    ensures Count(q, d, b, k) > 0 <==> exists c: nat :: c < b && Wins(q, d, c, k)
    decreases b
  {
    if b > 0 {
      CountPositive(q, d, b - 1, k);
      CountStep(q, d, b - 1, k);
    }
  }

  /** Entry k is the first of its slot that bucket c lists. */
  predicate ComesFirst(q: ParamsOk, d: Disk, c: nat, k: nat)
    requires c < |d.slots| && k < |d.news|
  {
    First(q, d, c, |d.slots[c]|, Position(q, d.news[k].addr, true, c)) == k
  }

  /** With the same number of new buckets an entry of a written manager stays exactly if in some bucket it is
      the first of its slot, and with another number exactly if it is the first of its home slot. */
  lemma SavedStaysIff(p: ParamsOk, s: State, q: ParamsOk, k: nat)
    requires Core(p, s, {}, 0) && k < |Saved(p, s).news|
    ensures var d := Saved(p, s);
      NewStays(q, d, k) <==>
        if q.newBuckets == p.newBuckets
        then exists c: nat :: c < p.newBuckets && ComesFirst(q, d, c, k)
        else HomeStays(q, d, k)
  {
    var d := Saved(p, s);
    CountPositive(q, d, |d.slots|, k);
    forall c: nat | c < |d.slots| ensures Wins(q, d, c, k) <==> ComesFirst(q, d, c, k) {
      SavedRoom(p, s, q, c);
      WinnerIsFirst(q, d, c, |d.slots[c]|, Position(q, d.news[k].addr, true, c));
    }
  }
}
