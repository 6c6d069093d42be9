/** The cuckoo cache: eight candidate slots per element, displacement on insertion, lazy
    erasure and two epochs.

    Hash functions are arbitrary; `& hash_mask` for a power-of-two size is `% size`. */
module Cuckoo {
  import opened Options

  datatype Params<!E> = Params(
    depthLimit: nat,
    hash: (nat, E) -> nat,
    filler: E)  // the value of a default-constructed element

  datatype Table<E> = Table(
    slots: seq<E>,
    collected: seq<bool>,  // slot may be overwritten
    recent: seq<bool>,     // slot belongs to the current epoch
    counter: nat)          // epoch_heuristic_counter

  /** size = 1 << depth_limit, at least two slots. */
  function Pow2(n: nat): (r: nat)
    ensures r >= 1
    ensures n >= 1 ==> r >= 2
  {
    if n == 0 then 1 else 2 * Pow2(n - 1)
  }

  function Size<E>(p: Params<E>): (n: nat)
    ensures n >= 1
  {
    Pow2(p.depthLimit)
  }

  /** 45% of the size, in 32-bit arithmetic: the product wraps around from 2^27 slots on. */
  function EpochSize<E>(p: Params<E>): (n: nat)
    ensures n >= 1
  {
    var n := 45 * Size(p) % 0x1_0000_0000 / 100;
    if n < 1 then 1 else n
  }

  function Loc<E>(p: Params<E>, e: E, k: nat): (i: nat)
    ensures i < Size(p)
  {
    p.hash(k, e) % Size(p)
  }

  function Locs<E>(p: Params<E>, e: E): (ls: seq<nat>)
    ensures |ls| == 8 && forall k :: 0 <= k < 8 ==> ls[k] < Size(p)
  {
    seq(8, k requires 0 <= k => Loc(p, e, k))
  }

  predicate Sized<E>(p: Params<E>, t: Table<E>) {
    |t.slots| == |t.collected| == |t.recent| == Size(p)
  }

  // ----- what the table holds ------------------------------------------------------------

  ghost function Retained<E>(p: Params<E>, t: Table<E>): set<E> {
    set i | 0 <= i < |t.slots| && t.slots[i] != p.filler :: t.slots[i]
  }

  ghost function Live<E>(t: Table<E>): set<E>
    requires |t.collected| == |t.slots|
  {
    set i | 0 <= i < |t.slots| && !t.collected[i] :: t.slots[i]
  }

  /** Every element sits in one of its own eight slots, at most once; unused slots are free. */
  ghost predicate Inv<E>(p: Params<E>, t: Table<E>) {
    && Sized(p, t)
    && (forall i :: 0 <= i < |t.slots| && t.slots[i] != p.filler ==> i in Locs(p, t.slots[i]))
    && (forall i, j :: 0 <= i < j < |t.slots| && t.slots[i] == t.slots[j] ==> t.slots[i] == p.filler)
    && (forall i :: 0 <= i < |t.slots| && t.slots[i] == p.filler ==> t.collected[i])
  }

  /** How many of the first n slots are kept and belong to the given epoch. */
  function Kept<E>(t: Table<E>, isRecent: bool, n: nat): nat
    requires |t.collected| == |t.recent| && n <= |t.recent|
  {
    if n == 0 then 0 else Kept(t, isRecent, n - 1) + if !t.collected[n - 1] && t.recent[n - 1] == isRecent then 1 else 0
  }

  function Load<E>(t: Table<E>, isRecent: bool): nat
    requires |t.collected| == |t.recent|
  {
    Kept(t, isRecent, |t.recent|)
  }

  function Bound<E>(p: Params<E>): nat {
    var n := EpochSize(p);
    n + Max(1, n / 16)
  }

  /** The numeric load bound of both epochs. */
  ghost predicate LoadOk<E>(p: Params<E>, t: Table<E>) {
    && Sized(p, t)
    && Load(t, true) + t.counter <= Bound(p)
    && Load(t, false) <= Bound(p)
  }

  // ----- changing one slot ----------------------------------------------------------------

  function Put<E>(t: Table<E>, loc: nat, e: E, isRecent: bool): Table<E>
    requires |t.slots| == |t.collected| == |t.recent| && loc < |t.slots|
  {
    t.(slots := t.slots[loc := e], collected := t.collected[loc := false], recent := t.recent[loc := isRecent])
  }

  function One(b: bool): nat { if b then 1 else 0 }

  lemma {:induction false} KeptPut<E>(t: Table<E>, loc: nat, e: E, isRecent: bool, flag: bool, n: nat)
    requires |t.slots| == |t.collected| == |t.recent| && loc < |t.slots| && n <= |t.slots|
    ensures Kept(Put(t, loc, e, isRecent), flag, n) ==
            Kept(t, flag, n) + if loc < n then One(isRecent == flag) - One(!t.collected[loc] && t.recent[loc] == flag) else 0
  {
    if n > 0 {
      KeptPut(t, loc, e, isRecent, flag, n - 1);
    }
  }

  lemma LoadPut<E>(t: Table<E>, loc: nat, e: E, isRecent: bool)
    requires |t.slots| == |t.collected| == |t.recent| && loc < |t.slots|
    ensures var u := Put(t, loc, e, isRecent);
      && Load(u, true) == Load(t, true) + One(isRecent) - One(!t.collected[loc] && t.recent[loc])
      && Load(u, false) == Load(t, false) + One(!isRecent) - One(!t.collected[loc] && !t.recent[loc])
  {
    KeptPut(t, loc, e, isRecent, true, |t.recent|);
    KeptPut(t, loc, e, isRecent, false, |t.recent|);
  }

  /** Putting a new element into one of its slots keeps the table in order. */
  lemma PutKeepsInv<E>(p: Params<E>, t: Table<E>, loc: nat, e: E, isRecent: bool)
    requires Inv(p, t) && loc < |t.slots| && loc in Locs(p, e) && e != p.filler
    requires forall i :: 0 <= i < |t.slots| && i != loc ==> t.slots[i] != e
    ensures Inv(p, Put(t, loc, e, isRecent))
  {
  }

  lemma PutSets<E>(p: Params<E>, t: Table<E>, loc: nat, e: E, isRecent: bool)
    requires Inv(p, t) && loc < |t.slots| && e != p.filler && e !in t.slots
    ensures var u := Put(t, loc, e, isRecent);
      && Retained(p, u) == Retained(p, t) - {t.slots[loc]} + {e}
      && Live(u) == (if t.collected[loc] then Live(t) else Live(t) - {t.slots[loc]}) + {e}
  {
    var u := Put(t, loc, e, isRecent);
    var y := t.slots[loc];
    forall x ensures x in Retained(p, u) <==> x in Retained(p, t) - {y} + {e} {
      if x in Retained(p, u) {
        var i :| 0 <= i < |u.slots| && u.slots[i] != p.filler && u.slots[i] == x;
        if i != loc { assert t.slots[i] == x && (i < loc || loc < i); }
      }
      if x in Retained(p, t) - {y} {
        var i :| 0 <= i < |t.slots| && t.slots[i] != p.filler && t.slots[i] == x;
        assert u.slots[i] == x;
      }
      assert u.slots[loc] == e;
    }
    PutLive(p, t, loc, e, isRecent);
  }

  lemma PutLive<E>(p: Params<E>, t: Table<E>, loc: nat, e: E, isRecent: bool)
    requires Inv(p, t) && loc < |t.slots| && e != p.filler && e !in t.slots
    ensures Live(Put(t, loc, e, isRecent)) == (if t.collected[loc] then Live(t) else Live(t) - {t.slots[loc]}) + {e}
  {
    var u := Put(t, loc, e, isRecent);
    var y := t.slots[loc];
    forall x ensures x in Live(u) <==> x in (if t.collected[loc] then Live(t) else Live(t) - {y}) + {e} {
      if x in Live(u) {
        var i :| 0 <= i < |u.slots| && !u.collected[i] && u.slots[i] == x;
        if i != loc { assert t.slots[i] == x && (i < loc || loc < i); }
      }
      if x in Live(t) {
        var i :| 0 <= i < |t.slots| && !t.collected[i] && t.slots[i] == x;
        if i != loc { assert u.slots[i] == x; }
      }
      assert u.slots[loc] == e;
    }
  }

  // ----- the epoch check --------------------------------------------------------------------

  /** The old epoch may be erased, the current epoch becomes the old one. */
  function Aged<E>(t: Table<E>): (u: Table<E>)
    requires |t.collected| == |t.recent|
    ensures |u.collected| == |u.recent| == |t.recent| && u.slots == t.slots && u.counter == t.counter
  {
    t.(collected := seq(|t.recent|, i requires 0 <= i < |t.recent| => t.collected[i] || !t.recent[i]),
       recent := seq(|t.recent|, i => false))
  }

  function EpochCheck<E>(p: Params<E>, t: Table<E>): Table<E>
    requires Sized(p, t)
  {
    var es := EpochSize(p);
    if t.counter != 0 then t.(counter := t.counter - 1)
    else if Load(t, true) >= es then Aged(t).(counter := es)
    else
      t.(counter := Max(1, Max(es / 16, es - Load(t, true))))
  }

  function Max(a: nat, b: nat): nat { if a < b then b else a }

  lemma {:induction false} KeptAged<E>(t: Table<E>, n: nat)
    requires |t.collected| == |t.recent| && n <= |t.recent|
    ensures Kept(Aged(t), true, n) == 0 && Kept(Aged(t), false, n) == Kept(t, true, n)
  {
    if n > 0 {
      KeptAged(t, n - 1);
    }
  }

  lemma {:induction false} KeptIgnoresCounter<E>(t: Table<E>, c: nat, flag: bool, n: nat)
    requires |t.collected| == |t.recent| && n <= |t.recent|
    ensures Kept(t.(counter := c), flag, n) == Kept(t, flag, n)
  {
    if n > 0 {
      KeptIgnoresCounter(t, c, flag, n - 1);
    }
  }

  lemma LoadIgnoresCounter<E>(t: Table<E>, c: nat)
    requires |t.collected| == |t.recent|
    ensures Load(t.(counter := c), true) == Load(t, true) && Load(t.(counter := c), false) == Load(t, false)
  {
    KeptIgnoresCounter(t, c, true, |t.recent|);
    KeptIgnoresCounter(t, c, false, |t.recent|);
  }

  /** There is room in the load bound for one more entry of the current epoch. */
  ghost predicate Roomy<E>(p: Params<E>, t: Table<E>) {
    Sized(p, t) && Load(t, true) + 1 + t.counter <= Bound(p) && Load(t, false) <= Bound(p)
  }

  /** The epoch check makes room for one insertion. */
  lemma EpochCheckMakesRoom<E>(p: Params<E>, t: Table<E>)
    requires Inv(p, t) && LoadOk(p, t)
    ensures Inv(p, EpochCheck(p, t)) && Roomy(p, EpochCheck(p, t))
    ensures EpochCheck(p, t).slots == t.slots
  {
    var u := EpochCheck(p, t);
    LoadIgnoresCounter(t, u.counter);
    KeptAged(t, |t.recent|);
    LoadIgnoresCounter(Aged(t), u.counter);
  }

  // ----- insertion ----------------------------------------------------------------------------

  /** The first of the locations from k on that satisfies the test, or 8. */
  function FirstFree<E>(t: Table<E>, locs: seq<nat>, k: nat): (r: nat)
    requires |locs| == 8 && k <= 8 && forall i :: 0 <= i < 8 ==> locs[i] < |t.collected|
    ensures k <= r <= 8
    ensures r < 8 ==> t.collected[locs[r]]
    ensures forall i :: k <= i < r ==> !t.collected[locs[i]]
    decreases 8 - k
  {
    if k == 8 then 8 else if t.collected[locs[k]] then k else FirstFree(t, locs, k + 1)
  }

  function FirstEqual<E(==)>(t: Table<E>, locs: seq<nat>, e: E, k: nat): (r: nat)
    requires |locs| == 8 && k <= 8 && forall i :: 0 <= i < 8 ==> locs[i] < |t.slots|
    ensures k <= r <= 8
    ensures r < 8 ==> t.slots[locs[r]] == e
    ensures forall i :: k <= i < r ==> t.slots[locs[i]] != e
    decreases 8 - k
  {
    if k == 8 then 8 else if t.slots[locs[k]] == e then k else FirstEqual(t, locs, e, k + 1)
  }

  function FindLoc(locs: seq<nat>, last: int, k: nat): (r: nat)
    requires |locs| == 8 && k <= 8
    ensures k <= r <= 8
    decreases 8 - k
  {
    if k == 8 then 8 else if locs[k] == last then k else FindLoc(locs, last, k + 1)
  }

  /** locs[(1 + find) & 7]; when the last location is not among them this is locs[1]. */
  function NextLoc(locs: seq<nat>, last: int): (loc: nat)
    requires |locs| == 8
    ensures loc in locs
  {
    locs[(1 + FindLoc(locs, last, 0)) % 8]
  }

  function SwapAt<E>(t: Table<E>, loc: nat, e: E, isRecent: bool): Table<E>
    requires |t.slots| == |t.recent| && loc < |t.slots|
  {
    t.(slots := t.slots[loc := e], recent := t.recent[loc := isRecent])
  }

  /** What an insertion works with: the live and the retained elements including the new one,
      and how many entries of each epoch there may be in the end. */
  datatype Goal<E> = Goal(live: set<E>, retained: set<E>, recent: nat, older: nat)

  ghost function GoalOf<E>(p: Params<E>, t: Table<E>, e: E): Goal<E>
    requires Sized(p, t)
  {
    Goal(Live(t) + {e}, Retained(p, t) + {e}, Load(t, true) + 1, Load(t, false))
  }

  /** While an element is in hand, it and the table together make up the goal. */
  ghost predicate Carries<E>(p: Params<E>, g: Goal<E>, t: Table<E>, e: E, isRecent: bool) {
    && Inv(p, t) && e != p.filler && e !in t.slots
    && Live(t) + {e} == g.live
    && Retained(p, t) + {e} == g.retained
    && Load(t, true) + One(isRecent) == g.recent
    && Load(t, false) + One(!isRecent) == g.older
  }

  ghost predicate CarriesAt<E>(p: Params<E>, g: Goal<E>, t: Table<E>, e: E, isRecent: bool, k: nat) {
    Carries(p, g, t, e, isRecent)
  }

  /** The same, closed to the solver; CarryingMeans opens it. */
  ghost predicate Carrying<E>(p: Params<E>, g: Goal<E>, t: Table<E>, e: E, isRecent: bool) {
    Sized(p, t) && forall k :: CarriesAt(p, g, t, e, isRecent, k)
  }

  lemma CarryingMeans<E>(p: Params<E>, g: Goal<E>, t: Table<E>, e: E, isRecent: bool)
    requires Sized(p, t)
    ensures Carrying(p, g, t, e, isRecent) <==> Carries(p, g, t, e, isRecent)
  {
    assert CarriesAt(p, g, t, e, isRecent, 0) <==> Carries(p, g, t, e, isRecent);
  }

  /** What an insertion achieves. */
  datatype Part = InOrder | Loaded | Filled

  ghost predicate Meets<E>(p: Params<E>, g: Goal<E>, u: Table<E>, lost: Option<E>, part: Part) {
    match part
    case InOrder => Inv(p, u)
    case Loaded => Sized(p, u) && Load(u, true) <= g.recent && Load(u, false) <= g.older
    case Filled => Sized(p, u) && Holds(p, g, u, lost)
  }

  /** Exactly the element lost is missing; if there is none, an erased element may have been
      overwritten. */
  ghost predicate Holds<E>(p: Params<E>, g: Goal<E>, u: Table<E>, lost: Option<E>)
    requires Sized(p, u)
  {
    match lost
    case Some(x) => x in g.live && Live(u) == g.live - {x} && Retained(p, u) == g.retained - {x}
    case None => Live(u) == g.live && Retained(p, u) <= g.retained && |g.retained - Retained(p, u)| <= 1
  }

  /** The goal is met, except that exactly the given element is lost if there is one. */
  ghost predicate Inserted<E>(p: Params<E>, g: Goal<E>, u: Table<E>, lost: Option<E>) {
    forall part :: Meets(p, g, u, lost, part)
  }

  lemma InsertedMeans<E>(p: Params<E>, g: Goal<E>, u: Table<E>, lost: Option<E>)
    ensures Inserted(p, g, u, lost) <==>
      Inv(p, u) && Load(u, true) <= g.recent && Load(u, false) <= g.older && Holds(p, g, u, lost)
  {
    assert Meets(p, g, u, lost, InOrder) <==> Inv(p, u);
    assert Meets(p, g, u, lost, Loaded) <==> Sized(p, u) && Load(u, true) <= g.recent && Load(u, false) <= g.older;
    assert Meets(p, g, u, lost, Filled) <==> Sized(p, u) && Holds(p, g, u, lost);
  }

  /** The chain of displacements: the table it leaves, and the element it drops when it runs out of
      rounds. */
  function Displaced<E(==)>(p: Params<E>, t: Table<E>, e: E, isRecent: bool, last: int, rounds: nat): (Table<E>, Option<E>)
    requires Sized(p, t)
    decreases rounds
  {
    if rounds == 0 then (t, Some(e))
    else
      var locs := Locs(p, e);
      var k := FirstFree(t, locs, 0);
      if k < 8 then (Put(t, locs[k], e, isRecent), None)
      else
        var loc := NextLoc(locs, last);
        Displaced(p, SwapAt(t, loc, e, isRecent), t.slots[loc], t.recent[loc], loc, rounds - 1)
  }

  /** One round of the chain. */
  lemma ChainStep<E>(p: Params<E>, t: Table<E>, e: E, isRecent: bool, last: int, rounds: nat, locs: seq<nat>, k: nat)
    requires Sized(p, t) && rounds > 0 && locs == Locs(p, e) && k == FirstFree(t, locs, 0)
    ensures Displaced(p, t, e, isRecent, last, rounds) ==
      if k < 8 then (Put(t, locs[k], e, isRecent), None)
      else
        var loc := NextLoc(locs, last);
        Displaced(p, SwapAt(t, loc, e, isRecent), t.slots[loc], t.recent[loc], loc, rounds - 1)
  {
  }

  ghost predicate LeadsAt<E>(p: Params<E>, t: Table<E>, e: E, isRecent: bool, last: int, rounds: nat, end: (Table<E>, Option<E>), k: nat) {
    Sized(p, t) && Displaced(p, t, e, isRecent, last, rounds) == end
  }

  /** The chain ends with `end`; closed to the solver, LeadsMeans opens it. */
  ghost predicate Leads<E>(p: Params<E>, t: Table<E>, e: E, isRecent: bool, last: int, rounds: nat, end: (Table<E>, Option<E>)) {
    Sized(p, t) && forall k :: LeadsAt(p, t, e, isRecent, last, rounds, end, k)
  }

  lemma LeadsMeans<E>(p: Params<E>, t: Table<E>, e: E, isRecent: bool, last: int, rounds: nat, end: (Table<E>, Option<E>))
    requires Sized(p, t)
    ensures Leads(p, t, e, isRecent, last, rounds, end) <==> Displaced(p, t, e, isRecent, last, rounds) == end
  {
    assert LeadsAt(p, t, e, isRecent, last, rounds, end, 0) <==> Displaced(p, t, e, isRecent, last, rounds) == end;
  }

  lemma LastRound<E>(p: Params<E>, t: Table<E>, e: E, isRecent: bool, last: int, end: (Table<E>, Option<E>))
    requires Leads(p, t, e, isRecent, last, 0, end)
    ensures end == (t, Some(e))
  {
    LeadsMeans(p, t, e, isRecent, last, 0, end);
  }

  /** insert, after its epoch check. */
  function Inserting<E(==)>(p: Params<E>, t: Table<E>, e: E): (Table<E>, Option<E>)
    requires Sized(p, t)
  {
    var k := FirstEqual(t, Locs(p, e), e, 0);
    if k < 8 then (Put(t, Locs(p, e)[k], e, true), None) else Displaced(p, t, e, true, -1, p.depthLimit)
  }

  /** An element that is in none of its own slots is nowhere in the table. */
  lemma NotInOwnSlots<E>(p: Params<E>, t: Table<E>, e: E)
    requires Inv(p, t) && e != p.filler
    requires forall k :: 0 <= k < 8 ==> t.slots[Locs(p, e)[k]] != e
    ensures e !in t.slots
  {
    forall i | 0 <= i < |t.slots| ensures t.slots[i] != e {
      assert i in Locs(p, e) ==> t.slots[i] != e;
    }
  }

  /** One swap: the element in hand takes a slot of its own, the holder of the slot is in
      hand next, and both keep their epoch. */
  lemma SwapCarries<E>(p: Params<E>, g: Goal<E>, t: Table<E>, e: E, isRecent: bool, loc: nat)
    requires Carries(p, g, t, e, isRecent) && loc in Locs(p, e) && loc < |t.slots| && !t.collected[loc]
    ensures Carries(p, g, SwapAt(t, loc, e, isRecent), t.slots[loc], t.recent[loc])
  {
    var u := Put(t, loc, e, isRecent);
    assert t.collected[loc := false] == t.collected;
    var y := t.slots[loc];
    PutKeepsInv(p, t, loc, e, isRecent);
    PutSets(p, t, loc, e, isRecent);
    LoadPut(t, loc, e, isRecent);
    assert y in Live(t) && y in Retained(p, t);
    assert y !in u.slots by {
      assert forall i :: 0 <= i < |t.slots| && i != loc ==> t.slots[i] != y;
    }
    assert Live(u) + {y} == Live(t) + {e};
    assert Retained(p, u) + {y} == Retained(p, t) + {e};
  }

  /** A free slot ends the chain: no live element is lost, only an erased one the slot still held. */
  lemma FreeSlotInserts<E>(p: Params<E>, g: Goal<E>, t: Table<E>, e: E, isRecent: bool, loc: nat)
    requires Carries(p, g, t, e, isRecent) && loc in Locs(p, e) && loc < |t.slots| && t.collected[loc]
    ensures Inserted(p, g, Put(t, loc, e, isRecent), None)
  {
    var u := Put(t, loc, e, isRecent);
    var y := t.slots[loc];
    PutKeepsInv(p, t, loc, e, isRecent);
    PutSets(p, t, loc, e, isRecent);
    LoadPut(t, loc, e, isRecent);
    CollectedNotLive(p, t, loc);
    OneGone(Retained(p, t), e, y, Retained(p, u), g.retained);
    InsertedMeans(p, g, u, None);
  }

  lemma OneGone<E>(before: set<E>, e: E, y: E, after: set<E>, goal: set<E>)
    requires after == before - {y} + {e} && goal == before + {e}
    ensures after <= goal && |goal - after| <= 1
  {
    assert goal - after == {} || goal - after == {y};
  }

  // ----- where a displacement goes -----------------------------------------------------------------

  predicate HasFree<E>(p: Params<E>, t: Table<E>, e: E)
    requires Sized(p, t)
  {
    exists k :: 0 <= k < 8 && t.collected[Locs(p, e)[k]]
  }

  /** Slot k is the first of the element's eight that is `loc`. */
  predicate FirstSlot<E>(p: Params<E>, e: E, loc: int, k: nat) {
    k < 8 && Locs(p, e)[k] == loc && forall i :: 0 <= i < k ==> Locs(p, e)[i] != loc
  }

  /** An element that comes from slot `last` goes to the slot after it in its own order, and to its second
      slot if it comes from elsewhere. */
  ghost predicate GoesTo<E>(p: Params<E>, e: E, last: int, loc: nat) {
    if last in Locs(p, e) then exists k: nat :: FirstSlot(p, e, last, k) && loc == Locs(p, e)[(k + 1) % 8]
    else loc == Locs(p, e)[1]
  }

  lemma {:induction false} FindLocIs(locs: seq<nat>, last: int, k: nat)
    requires |locs| == 8 && k <= 8
    ensures var r := FindLoc(locs, last, k);
      (r < 8 ==> locs[r] == last) && forall i :: k <= i < r ==> locs[i] != last
    decreases 8 - k
  {
    if k < 8 {
      FindLocIs(locs, last, k + 1);
    }
  }

  lemma NextGoesTo<E>(p: Params<E>, e: E, last: int, loc: nat)
    ensures GoesTo(p, e, last, loc) <==> loc == NextLoc(Locs(p, e), last)
  {
    var locs := Locs(p, e);
    var r := FindLoc(locs, last, 0);
    FindLocIs(locs, last, 0);
    if r < 8 {
      assert FirstSlot(p, e, last, r);
      assert locs[r] in locs;
      forall k: nat | FirstSlot(p, e, last, k) ensures k == r {
        OneFirstSlot(p, e, last, k, r);
      }
    }
  }

  lemma OneFirstSlot<E>(p: Params<E>, e: E, loc: int, j: nat, k: nat)
    requires FirstSlot(p, e, loc, j) && FirstSlot(p, e, loc, k)
    ensures j == k
  {
  }

  /** An element with eight different slots does not go back where it was taken from. */
  lemma NeverBack<E>(p: Params<E>, e: E, last: int, loc: nat)
    requires GoesTo(p, e, last, loc) && last in Locs(p, e)
    requires forall i, j :: 0 <= i < j < 8 ==> Locs(p, e)[i] != Locs(p, e)[j]
    ensures loc != last
  {
  }

  /** A way through the table: e has no free slot and goes to the first slot of the path, the holder of that
      slot goes to the next, and the last one displaced has a free slot. */
  ghost predicate Trail<E>(p: Params<E>, t: Table<E>, e: E, last: int, path: seq<nat>)
    requires Sized(p, t)
    decreases |path|
  {
    if path == [] then HasFree(p, t, e)
    else
      && !HasFree(p, t, e) && path[0] < |t.slots| && GoesTo(p, e, last, path[0])
      && Trail(p, t, t.slots[path[0]], path[0], path[1..])
  }

  lemma {:induction false} TrailSame<E>(p: Params<E>, t: Table<E>, u: Table<E>, e: E, last: int, path: seq<nat>)
    requires Sized(p, t) && Sized(p, u) && u.collected == t.collected && Trail(p, t, e, last, path)
    requires forall i :: 0 <= i < |path| && path[i] < |t.slots| ==> u.slots[path[i]] == t.slots[path[i]]
    ensures Trail(p, u, e, last, path)
    decreases |path|
  {
    if path != [] {
      TrailSame(p, t, u, t.slots[path[0]], path[0], path[1..]);
    }
  }

  lemma FreeIff<E>(p: Params<E>, t: Table<E>, e: E)
    requires Sized(p, t)
    ensures FirstFree(t, Locs(p, e), 0) < 8 <==> HasFree(p, t, e)
  {
  }

  lemma TrailEnds<E>(p: Params<E>, t: Table<E>, e: E, isRecent: bool, last: int, rounds: nat, end: (Table<E>, Option<E>))
    requires Leads(p, t, e, isRecent, last, rounds, end) && HasFree(p, t, e) && rounds > 0
    ensures end.1 == None
  {
    var locs := Locs(p, e);
    FreeIff(p, t, e);
    LeadsMeans(p, t, e, isRecent, last, rounds, end);
    ChainStep(p, t, e, isRecent, last, rounds, locs, FirstFree(t, locs, 0));
  }

  lemma TrailSwaps<E>(p: Params<E>, t: Table<E>, e: E, isRecent: bool, last: int, rounds: nat, end: (Table<E>, Option<E>),
                      loc: nat) returns (u: Table<E>)
    requires Leads(p, t, e, isRecent, last, rounds, end) && !HasFree(p, t, e) && rounds > 0
    requires GoesTo(p, e, last, loc) && loc < |t.slots|
    ensures u == SwapAt(t, loc, e, isRecent) && Leads(p, u, t.slots[loc], t.recent[loc], loc, rounds - 1, end)
  {
    FreeIff(p, t, e);
    LeadsMeans(p, t, e, isRecent, last, rounds, end);
    ChainStep(p, t, e, isRecent, last, rounds, Locs(p, e), 8);
    NextGoesTo(p, e, last, loc);
    u := SwapAt(t, loc, e, isRecent);
    LeadsMeans(p, u, t.slots[loc], t.recent[loc], loc, rounds - 1, end);
  }

  predicate Different(path: seq<nat>) { forall i, j :: 0 <= i < j < |path| ==> path[i] != path[j] }

  ghost predicate OnTrailAt<E>(p: Params<E>, t: Table<E>, e: E, isRecent: bool, last: int, rounds: nat, path: seq<nat>,
                               end: (Table<E>, Option<E>), k: nat) {
    && Leads(p, t, e, isRecent, last, rounds, end) && Trail(p, t, e, last, path)
    && |path| < rounds && Different(path)
  }

  /** The chain that ends with `end` has the path before it, and rounds enough.  Closed to the solver by k. */
  ghost predicate OnTrail<E>(p: Params<E>, t: Table<E>, e: E, isRecent: bool, last: int, rounds: nat, path: seq<nat>,
                             end: (Table<E>, Option<E>)) {
    forall k :: OnTrailAt(p, t, e, isRecent, last, rounds, path, end, k)
  }

  lemma TrailArrives<E>(p: Params<E>, t: Table<E>, e: E, isRecent: bool, last: int, rounds: nat, end: (Table<E>, Option<E>))
    requires OnTrail(p, t, e, isRecent, last, rounds, [], end)
    ensures end.1 == None
  {
    assert OnTrailAt(p, t, e, isRecent, last, rounds, [], end, 0);
    TrailEnds(p, t, e, isRecent, last, rounds, end);
  }

  lemma TrailGoesOn<E>(p: Params<E>, t: Table<E>, e: E, isRecent: bool, last: int, rounds: nat, path: seq<nat>,
                       end: (Table<E>, Option<E>)) returns (u: Table<E>, held: E, heldRecent: bool, loc: int, rest: seq<nat>)
    requires OnTrail(p, t, e, isRecent, last, rounds, path, end) && path != [] && rounds > 0
    ensures OnTrail(p, u, held, heldRecent, loc, rounds - 1, rest, end) && |rest| == |path| - 1
  {
    assert OnTrailAt(p, t, e, isRecent, last, rounds, path, end, 0);
    loc, rest := path[0], path[1..];
    held, heldRecent := t.slots[path[0]], t.recent[path[0]];
    u := TrailSwaps(p, t, e, isRecent, last, rounds, end, path[0]);
    TrailSame(p, t, u, held, path[0], path[1..]);
  }

  /** The chain follows the path and loses nothing. */
  lemma {:induction false} TrailInserts<E>(p: Params<E>, t: Table<E>, e: E, isRecent: bool, last: int, rounds: nat,
                                           path: seq<nat>, end: (Table<E>, Option<E>))
    requires OnTrail(p, t, e, isRecent, last, rounds, path, end) && rounds >= |path|
    ensures end.1 == None
    decreases |path|
  {
    if path == [] {
      TrailArrives(p, t, e, isRecent, last, rounds, end);
    } else {
      var u, held, heldRecent, loc, rest := TrailGoesOn(p, t, e, isRecent, last, rounds, path, end);
      TrailInserts(p, u, held, heldRecent, loc, rounds - 1, rest, end);
    }
  }

  /** A path of different slots, short enough for the depth limit. */
  ghost predicate WayIn<E>(p: Params<E>, t: Table<E>, e: E, path: seq<nat>)
    requires Sized(p, t)
  {
    Trail(p, t, e, -1, path) && |path| < p.depthLimit && Different(path)
  }

  /** An insertion that finds a way in loses nothing. */
  lemma WayInInserts<E>(p: Params<E>, t: Table<E>, e: E, path: seq<nat>)
    requires Inv(p, t) && e != p.filler && WayIn(p, t, e, path)
    ensures Inserting(p, t, e).1 == None
  {
    if FirstEqual(t, Locs(p, e), e, 0) == 8 {
      LeadsMeans(p, t, e, true, -1, p.depthLimit, Inserting(p, t, e));
      TrailInserts(p, t, e, true, -1, p.depthLimit, path, Inserting(p, t, e));
    }
  }

  /** One displacement: all slots of e are taken, its second slot is held by an element with a free slot. */
  lemma SecondSlotWayIn<E>(p: Params<E>, t: Table<E>, e: E)
    requires Sized(p, t) && p.depthLimit >= 2 && !HasFree(p, t, e) && HasFree(p, t, t.slots[Locs(p, e)[1]])
    ensures WayIn(p, t, e, [Locs(p, e)[1]])
  {
    var path := [Locs(p, e)[1]];
    assert path[1..] == [];
    assert Trail(p, t, t.slots[path[0]], path[0], []);
  }

  lemma CollectedNotLive<E>(p: Params<E>, t: Table<E>, loc: nat)
    requires Inv(p, t) && loc < |t.slots| && t.collected[loc]
    ensures t.slots[loc] !in Live(t)
  {
    forall i | 0 <= i < |t.slots| && !t.collected[i] ensures t.slots[i] != t.slots[loc] {
      assert i < loc || loc < i;
    }
  }

  /** Out of rounds: the element in hand is dropped. */
  lemma DroppingInserts<E>(p: Params<E>, g: Goal<E>, t: Table<E>, e: E, isRecent: bool)
    requires Carries(p, g, t, e, isRecent)
    ensures Inserted(p, g, t, Some(e))
  {
    InsertedMeans(p, g, t, Some(e));
    assert e !in Live(t) && e !in Retained(p, t);
    assert Live(t) == g.live - {e};
    assert Retained(p, t) == g.retained - {e};
  }

  /** A round in which a free slot is found. */
  lemma RoundEnds<E>(p: Params<E>, g: Goal<E>, t: Table<E>, e: E, isRecent: bool, last: int, rounds: nat, end: (Table<E>, Option<E>))
    requires Carrying(p, g, t, e, isRecent) && Leads(p, t, e, isRecent, last, rounds, end)
    requires rounds > 0 && FirstFree(t, Locs(p, e), 0) < 8
    ensures Inserted(p, g, end.0, end.1) && end.0.counter == t.counter
  {
    var locs := Locs(p, e);
    var k := FirstFree(t, locs, 0);
    LeadsMeans(p, t, e, isRecent, last, rounds, end);
    ChainStep(p, t, e, isRecent, last, rounds, locs, k);
    CarryingMeans(p, g, t, e, isRecent);
    FreeSlotInserts(p, g, t, e, isRecent, locs[k]);
  }

  lemma SwapKeepsCarrying<E>(p: Params<E>, g: Goal<E>, t: Table<E>, e: E, isRecent: bool, loc: nat)
    requires Carrying(p, g, t, e, isRecent) && loc in Locs(p, e) && loc < |t.slots| && !t.collected[loc]
    ensures Carrying(p, g, SwapAt(t, loc, e, isRecent), t.slots[loc], t.recent[loc])
  {
    CarryingMeans(p, g, t, e, isRecent);
    SwapCarries(p, g, t, e, isRecent, loc);
    CarryingMeans(p, g, SwapAt(t, loc, e, isRecent), t.slots[loc], t.recent[loc]);
  }

  /** A round in which the element in hand displaces another. */
  lemma RoundSwaps<E>(p: Params<E>, g: Goal<E>, t: Table<E>, e: E, isRecent: bool, last: int, rounds: nat, end: (Table<E>, Option<E>))
      returns (u: Table<E>, held: E, heldRecent: bool, loc: nat)
    requires Carrying(p, g, t, e, isRecent) && Leads(p, t, e, isRecent, last, rounds, end)
    requires rounds > 0 && FirstFree(t, Locs(p, e), 0) == 8
    ensures Carrying(p, g, u, held, heldRecent) && Leads(p, u, held, heldRecent, loc, rounds - 1, end)
    ensures u.counter == t.counter
  {
    var locs := Locs(p, e);
    LeadsMeans(p, t, e, isRecent, last, rounds, end);
    ChainStep(p, t, e, isRecent, last, rounds, locs, 8);
    loc := NextLoc(locs, last);
    u, held, heldRecent := SwapAt(t, loc, e, isRecent), t.slots[loc], t.recent[loc];
    SwapKeepsCarrying(p, g, t, e, isRecent, loc);
    LeadsMeans(p, u, held, heldRecent, loc, rounds - 1, end);
  }

  lemma NoRounds<E>(p: Params<E>, g: Goal<E>, t: Table<E>, e: E, isRecent: bool, last: int, end: (Table<E>, Option<E>))
    requires Carrying(p, g, t, e, isRecent) && Leads(p, t, e, isRecent, last, 0, end)
    ensures Inserted(p, g, end.0, end.1) && end.0.counter == t.counter
  {
    LastRound(p, t, e, isRecent, last, end);
    CarryingMeans(p, g, t, e, isRecent);
    DroppingInserts(p, g, t, e, isRecent);
  }

  /** However long the chain: nothing live is lost if it meets a free slot, and exactly the element
      in hand if it runs out of rounds. */
  lemma {:induction false} DisplacedExact<E>(p: Params<E>, g: Goal<E>, t: Table<E>, e: E, isRecent: bool, last: int, rounds: nat,
                                             end: (Table<E>, Option<E>))
    requires Carrying(p, g, t, e, isRecent) && Leads(p, t, e, isRecent, last, rounds, end)
    ensures Inserted(p, g, end.0, end.1) && end.0.counter == t.counter
    decreases rounds
  {
    if rounds == 0 {
      NoRounds(p, g, t, e, isRecent, last, end);
    } else if FirstFree(t, Locs(p, e), 0) < 8 {
      RoundEnds(p, g, t, e, isRecent, last, rounds, end);
    } else {
      var u, held, heldRecent, loc := RoundSwaps(p, g, t, e, isRecent, last, rounds, end);
      DisplacedExact(p, g, u, held, heldRecent, loc, rounds - 1, end);
    }
  }

  /** insert adds its element and loses at most one live element: none at all if the element is
      still in the table or one of its eight slots is free. */
  lemma InsertExact<E>(p: Params<E>, t: Table<E>, e: E)
    requires Inv(p, t) && e != p.filler
    ensures var (u, lost) := Inserting(p, t, e);
      && Inserted(p, GoalOf(p, t, e), u, lost) && u.counter == t.counter
      && (e in Retained(p, t) ==> lost.None?)
      && (p.depthLimit > 0 && (exists k :: 0 <= k < 8 && t.collected[Locs(p, e)[k]]) ==> lost.None?)
  {
    var locs := Locs(p, e);
    if FirstEqual(t, locs, e, 0) < 8 {
      Revive(p, t, locs[FirstEqual(t, locs, e, 0)]);
    } else {
      NotInOwnSlots(p, t, e);
      CarryingMeans(p, GoalOf(p, t, e), t, e, true);
      LeadsMeans(p, t, e, true, -1, p.depthLimit, Inserting(p, t, e));
      DisplacedExact(p, GoalOf(p, t, e), t, e, true, -1, p.depthLimit, Inserting(p, t, e));
    }
  }

  /** An element found in its slot, erased or not, is kept for the current epoch. */
  lemma Revive<E>(p: Params<E>, t: Table<E>, loc: nat)
    requires Inv(p, t) && loc < |t.slots| && t.slots[loc] != p.filler
    ensures var e := t.slots[loc];
      && Put(t, loc, e, true) == t.(collected := t.collected[loc := false], recent := t.recent[loc := true])
      && Inserted(p, GoalOf(p, t, e), Put(t, loc, e, true), None)
  {
    var e := t.slots[loc];
    var u := Put(t, loc, e, true);
    assert t.slots[loc := e] == t.slots;
    LoadPut(t, loc, e, true);
    assert Retained(p, u) == Retained(p, t);
    assert e in Retained(p, t);
    forall x ensures x in Live(u) <==> x in Live(t) + {e} {
      if x in Live(t) {
        var i :| 0 <= i < |t.slots| && !t.collected[i] && t.slots[i] == x;
        assert !u.collected[i] && u.slots[i] == x;
      }
      assert !u.collected[loc] && u.slots[loc] == e;
    }
    assert Retained(p, t) + {e} - Retained(p, u) == {};
    InsertedMeans(p, GoalOf(p, t, e), u, None);
  }

  /** An insertion into a table with room keeps both epochs within the load bound. */
  lemma InsertedKeepsLoad<E>(p: Params<E>, t: Table<E>, e: E, u: Table<E>, lost: Option<E>)
    requires Roomy(p, t) && Inserted(p, GoalOf(p, t, e), u, lost) && u.counter == t.counter
    ensures Inv(p, u) && LoadOk(p, u)
  {
    InsertedMeans(p, GoalOf(p, t, e), u, lost);
  }

  // ----- lookup --------------------------------------------------------------------------------

  /** contains with erase set marks the slot it found as free. */
  function Contains<E(==)>(p: Params<E>, t: Table<E>, e: E, erase: bool): (r: (Table<E>, bool))
    requires Sized(p, t)
  {
    var k := FirstEqual(t, Locs(p, e), e, 0);
    if k == 8 then (t, false)
    else if erase then (t.(collected := t.collected[Locs(p, e)[k] := true]), true)
    else (t, true)
  }

  /** contains finds exactly the retained elements, including erased ones that have not been
      overwritten, and erasing one changes nothing but that it is no longer live. */
  lemma ContainsExact<E>(p: Params<E>, t: Table<E>, e: E, erase: bool)
    requires Inv(p, t) && e != p.filler
    ensures var (u, found) := Contains(p, t, e, erase);
      && (found <==> e in Retained(p, t))
      && Inv(p, u) && Retained(p, u) == Retained(p, t)
      && Live(u) == if erase then Live(t) - {e} else Live(t)
  {
    var k := FirstEqual(t, Locs(p, e), e, 0);
    if k == 8 {
      NotInOwnSlots(p, t, e);
    } else {
      var loc := Locs(p, e)[k];
      assert e in Retained(p, t);
      EraseLive(p, t, loc);
      var u := t.(collected := t.collected[loc := true]);
      assert Retained(p, u) == Retained(p, t);
    }
  }

  lemma EraseLive<E>(p: Params<E>, t: Table<E>, loc: nat)
    requires Inv(p, t) && loc < |t.slots| && t.slots[loc] != p.filler
    ensures Live(t.(collected := t.collected[loc := true])) == Live(t) - {t.slots[loc]}
  {
    var u := t.(collected := t.collected[loc := true]);
    var e := t.slots[loc];
    forall x ensures x in Live(u) <==> x in Live(t) - {e} {
      if x in Live(u) {
        var i :| 0 <= i < |u.slots| && !u.collected[i] && u.slots[i] == x;
        assert i < loc || loc < i;
      }
      if x in Live(t) - {e} {
        var i :| 0 <= i < |t.slots| && !t.collected[i] && t.slots[i] == x;
        assert !u.collected[i];
      }
    }
  }

  lemma {:induction false} KeptErase<E>(t: Table<E>, loc: nat, flag: bool, n: nat)
    requires |t.collected| == |t.recent| && loc < |t.recent| && n <= |t.recent|
    ensures Kept(t.(collected := t.collected[loc := true]), flag, n) <= Kept(t, flag, n)
  {
    if n > 0 {
      KeptErase(t, loc, flag, n - 1);
    }
  }

  lemma ContainsKeepsLoad<E>(p: Params<E>, t: Table<E>, e: E, erase: bool)
    requires LoadOk(p, t)
    ensures LoadOk(p, Contains(p, t, e, erase).0)
  {
    var k := FirstEqual(t, Locs(p, e), e, 0);
    if k < 8 {
      var loc := Locs(p, e)[k];
      KeptErase(t, loc, true, |t.recent|);
      KeptErase(t, loc, false, |t.recent|);
    }
  }

  // ----- whole runs ------------------------------------------------------------------------------

  function Setup<E>(p: Params<E>): (t: Table<E>)
    ensures Sized(p, t)
  {
    var n := Size(p);
    Table(seq(n, i => p.filler), seq(n, i => true), seq(n, i => false), EpochSize(p))
  }

  lemma SetupOk<E>(p: Params<E>)
    ensures Inv(p, Setup(p)) && LoadOk(p, Setup(p)) && Retained(p, Setup(p)) == {}
  {
    KeptNone(Setup(p), true, Size(p));
    KeptNone(Setup(p), false, Size(p));
  }

  lemma {:induction false} KeptNone<E>(t: Table<E>, flag: bool, n: nat)
    requires |t.collected| == |t.recent| && n <= |t.recent| && forall i :: 0 <= i < n ==> t.collected[i]
    ensures Kept(t, flag, n) == 0
  {
    if n > 0 {
      KeptNone(t, flag, n - 1);
    }
  }

  class Cache<!E(==,!new)> {
    const p: Params<E>
    var slots: seq<E>
    var collected: seq<bool>
    var recent: seq<bool>
    var counter: nat

    function T(): Table<E>
      reads this
    {
      Table(slots, collected, recent, counter)
    }

    /** The table is in order and both epochs are within the load bound. */
    ghost predicate Valid()
      reads this
    {
      Inv(p, T()) && LoadOk(p, T())
    }

    constructor (params: Params<E>)
      ensures p == params && Valid() && T() == Setup(p) && Retained(p, T()) == {}
    {
      p := params;
      var n := Size(params);
      slots, collected, recent := seq(n, i => params.filler), seq(n, i => true), seq(n, i => false);
      counter := EpochSize(params);
      new;
      SetupOk(p);
    }

    /** The scan of epoch_check: live entries of the current epoch. */
    method CountRecent() returns (unused: nat)
      requires |recent| == |slots| && |collected| == |slots|
      ensures unused == Kept(T(), true, |slots|)
    {
      unused := 0;
      var i := 0;
      while i < |slots|
        invariant 0 <= i <= |slots| && unused == Kept(T(), true, i)
      {
        if recent[i] && !collected[i] {
          unused := unused + 1;
        }
        i := i + 1;
      }
    }

    /** epoch_check: count down, or scan and possibly age the epochs. */
    method CheckEpoch()
      requires Valid()
      modifies this
      ensures T() == EpochCheck(p, old(T()))
      ensures Inv(p, T()) && Roomy(p, T()) && slots == old(slots)
      ensures old(counter) > 0 || Load(old(T()), true) < EpochSize(p) ==> collected == old(collected) && recent == old(recent)
      ensures old(counter) == 0 && Load(old(T()), true) >= EpochSize(p) ==> forall i :: 0 <= i < |slots| ==>
        !recent[i] && (collected[i] <==> old(collected)[i] || !old(recent)[i])
      ensures counter == if old(counter) > 0 then old(counter) - 1
        else if Load(old(T()), true) >= EpochSize(p) then EpochSize(p)
        else Max(1, Max(EpochSize(p) / 16, EpochSize(p) - Load(old(T()), true)))
    {
      EpochCheckMakesRoom(p, T());
      if counter != 0 {
        counter := counter - 1;
        return;
      }
      var unused := CountRecent();
      if unused >= EpochSize(p) {
        Age();
        counter := EpochSize(p);
      } else {
        counter := Max(1, Max(EpochSize(p) / 16, EpochSize(p) - unused));
      }
    }

    method Age()
      requires Sized(p, T())
      modifies this`collected, this`recent
      ensures T() == Aged(old(T()))
    {
      var i := 0;
      while i < |recent|
        invariant 0 <= i <= |recent| == |collected| == |old(recent)|
        invariant forall j :: 0 <= j < i ==> !recent[j] && collected[j] == (old(collected)[j] || !old(recent)[j])
        invariant forall j :: i <= j < |recent| ==> recent[j] == old(recent)[j] && collected[j] == old(collected)[j]
      {
        if recent[i] {
          recent := recent[i := false];
        } else {
          collected := collected[i := true];
        }
        i := i + 1;
      }
    }

    /** insert: after its epoch check the live elements become old plus new, less the element in
        hand if the chain of displacements runs out of rounds. */
    method Insert(e: E) returns (ghost lost: Option<E>)
      requires Valid() && e != p.filler
      modifies this
      ensures Valid()
      ensures (T(), lost) == Inserting(p, EpochCheck(p, old(T())), e)
      ensures Holds(p, GoalOf(p, EpochCheck(p, old(T())), e), T(), lost)
      ensures forall path :: WayIn(p, EpochCheck(p, old(T())), e, path) ==> lost == None
    {
      CheckEpoch();
      ghost var t := T();
      InsertExact(p, t, e);
      lost := Inserting(p, t, e).1;
      forall path | WayIn(p, t, e, path) ensures lost == None {
        WayInInserts(p, t, e, path);
      }
      InsertedKeepsLoad(p, t, e, Inserting(p, t, e).0, lost);
      InsertedMeans(p, GoalOf(p, t, e), Inserting(p, t, e).0, lost);
      var k := FirstEqual(T(), Locs(p, e), e, 0);
      if k < 8 {
        var loc := Locs(p, e)[k];
        assert slots[loc := e] == slots;
        collected := collected[loc := false];
        recent := recent[loc := true];
      } else {
        Displace(e);
      }
    }

    /** The displacement loop of insert. */
    method Displace(e0: E)
      requires Sized(p, T())
      modifies this`slots, this`collected, this`recent
      ensures T() == Displaced(p, old(T()), e0, true, -1, p.depthLimit).0
    {
      ghost var end := Displaced(p, T(), e0, true, -1, p.depthLimit);
      LeadsMeans(p, T(), e0, true, -1, p.depthLimit, end);
      Chain(e0, end);
    }

    method Chain(e0: E, ghost end: (Table<E>, Option<E>))
      requires Leads(p, T(), e0, true, -1, p.depthLimit, end)
      modifies this`slots, this`collected, this`recent
      ensures T() == end.0
    {
      var e, isRecent, last := e0, true, -1;
      var depth, placed := 0, false;
      while depth < p.depthLimit && !placed
        invariant 0 <= depth <= p.depthLimit
        invariant if placed then T() == end.0 else Leads(p, T(), e, isRecent, last, p.depthLimit - depth, end)
      {
        placed, e, isRecent, last := Round(e, isRecent, last, p.depthLimit - depth, end);
        depth := depth + 1;
      }
      if !placed {
        LastRound(p, T(), e, isRecent, last, end);
      }
    }

    /** One round of the loop: the element takes a free slot, or changes places with another. */
    method Round(e: E, isRecent: bool, last: int, ghost rounds: nat, ghost end: (Table<E>, Option<E>))
        returns (placed: bool, held: E, heldRecent: bool, loc: int)
      requires rounds > 0 && Leads(p, T(), e, isRecent, last, rounds, end)
      modifies this`slots, this`collected, this`recent
      ensures if placed then T() == end.0 else Leads(p, T(), held, heldRecent, loc, rounds - 1, end)
      ensures placed <==> HasFree(p, old(T()), e)
      ensures !placed ==>
        && loc >= 0 && GoesTo(p, e, last, loc) && loc < |old(slots)| && held == old(slots)[loc] && heldRecent == old(recent)[loc]
        && slots == old(slots)[loc := e] && recent == old(recent)[loc := isRecent] && collected == old(collected)
    {
      var locs := Locs(p, e);
      var k := FirstFree(T(), locs, 0);
      LeadsMeans(p, T(), e, isRecent, last, rounds, end);
      ChainStep(p, T(), e, isRecent, last, rounds, locs, k);
      FreeIff(p, T(), e);
      placed, held, heldRecent, loc := k < 8, e, isRecent, NextLoc(locs, last);
      NextGoesTo(p, e, last, loc);
      if placed {
        slots := slots[locs[k] := e];
        collected := collected[locs[k] := false];
        recent := recent[locs[k] := isRecent];
      } else {
        held, heldRecent := slots[loc], recent[loc];
        slots := slots[loc := e];
        recent := recent[loc := isRecent];
        LeadsMeans(p, T(), held, heldRecent, loc, rounds - 1, end);
      }
    }

    /** contains finds exactly the retained elements, including erased ones that have not been
        overwritten. */
    method Lookup(e: E, erase: bool) returns (found: bool)
      requires Valid() && e != p.filler
      modifies this`collected
      ensures Valid()
      ensures found <==> e in old(Retained(p, T()))
      ensures Retained(p, T()) == old(Retained(p, T()))
      ensures Live(T()) == if erase then old(Live(T())) - {e} else old(Live(T()))
    {
      ContainsExact(p, T(), e, erase);
      ContainsKeepsLoad(p, T(), e, erase);
      var k := FirstEqual(T(), Locs(p, e), e, 0);
      found := k < 8;
      if found && erase {
        collected := collected[Locs(p, e)[k] := true];
      }
    }
  }

  datatype Op<E> = InsertOp(e: E) | ContainsOp(e: E, erase: bool)

  /** In every run the table is in order, the current epoch together with the counter stays
      within the bound, and all kept entries within twice the bound. */
  method Run<E(==,!new)>(p: Params<E>, ops: seq<Op<E>>) returns (c: Cache<E>)
    requires forall i :: 0 <= i < |ops| ==> ops[i].e != p.filler
    ensures c.p == p && c.Valid()
    ensures Load(c.T(), true) + c.counter <= Bound(p)
    ensures Load(c.T(), true) + Load(c.T(), false) <= 2 * Bound(p)
  {
    c := new Cache(p);
    for i := 0 to |ops|
      invariant c.p == p && c.Valid() && fresh(c)
    {
      match ops[i]
      case InsertOp(e) => ghost var lost := c.Insert(e);
      case ContainsOp(e, erase) => var found := c.Lookup(e, erase);
    }
  }
}
