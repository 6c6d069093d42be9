/** The outcome of calculateChange is determined: every phase leaves exactly one selection. */
module ChangeOutcome {
  import opened Denominations
  import opened Spending

  // ----- the first phase ------------------------------------------------------------------------------

  /** What is missing when the denominations from n on have been gone through. */
  function Missing(vals: seq<nat>, used: seq<nat>, target: int, n: nat): int
    requires |used| == |vals| && n <= |vals|
    decreases |vals| - n
  {
    if n == |vals| then target else Missing(vals, used, target, n + 1) - Worth(vals[n], used[n])
  }

  lemma {:induction false} MissingIs(vals: seq<nat>, used: seq<nat>, target: int, n: nat)
    requires |used| == |vals| && n <= |vals|
    ensures Missing(vals, used, target, n) == target - Value(vals, used) + Below(vals, used, n)
    decreases |vals| - n
  {
    if n < |vals| {
      MissingIs(vals, used, target, n + 1);
    }
  }

  /** Had the loop gone on from a to b, nothing would be missing any more. */
  lemma CountPast(v: nat, held: nat, r: int, a: nat, b: nat)
    ensures a < b <= held && (a == held || r - Worth(v, a) <= v) ==> r - Worth(v, b) <= 0
  {
    if a < b {
      WorthMonotone(v, a + 1, b);
    }
  }

  /** A denomination is left with the same count when the same is missing. */
  lemma OneCount(v: nat, held: nat, r: int, a: nat, b: nat)
    requires a <= held && b <= held && r - Worth(v, a) > 0 && r - Worth(v, b) > 0
    requires a == held || r - Worth(v, a) <= v
    requires b == held || r - Worth(v, b) <= v
    ensures a == b
  {
    CountPast(v, held, r, a, b);
    CountPast(v, held, r, b, a);
  }

  lemma {:induction false} SameFrom(vals: seq<nat>, held: seq<nat>, target: int, top: int, a: seq<nat>, x: int, b: seq<nat>, y: int, n: nat)
    requires Chain(vals) && target > 0 && |held| == |vals| && n <= |vals|
    requires FirstPhase(vals, held, target, top, a, x) && FirstPhase(vals, held, target, top, b, y)
    ensures forall i :: n <= i < |vals| ==> a[i] == b[i]
    ensures Missing(vals, a, target, n) == Missing(vals, b, target, n)
    decreases |vals| - n
  {
    if n < |vals| {
      SameFrom(vals, held, target, top, a, x, b, y, n + 1);
      if n <= top {
        MissingIs(vals, a, target, n);
        MissingIs(vals, b, target, n);
        assert Stopped(vals, held, a, x, n) && Stopped(vals, held, b, y, n);
        OneCount(vals[n], held[n], Missing(vals, a, target, n + 1), a[n], b[n]);
      }
    }
  }

  lemma FirstPhaseUnique(vals: seq<nat>, held: seq<nat>, target: int, top: int, a: seq<nat>, x: int, b: seq<nat>, y: int)
    requires Chain(vals) && |held| == |vals|
    requires FirstPhase(vals, held, target, top, a, x) && FirstPhase(vals, held, target, top, b, y)
    ensures a == b && x == y
  {
    if target > 0 {
      SameFrom(vals, held, target, top, a, x, b, y, 0);
    }
  }

  // ----- the later phases ---------------------------------------------------------------------------------

  lemma SpareUnique(vals: seq<nat>, held: seq<nat>, used: seq<nat>, rest: int, a: seq<nat>, b: seq<nat>)
    requires |held| == |vals| == |used| && SpareAdded(vals, held, used, rest, a) && SpareAdded(vals, held, used, rest, b)
    ensures a == b
  {
    if rest >= 0 && HasSpare(vals, held, used, rest) {
      var d: nat :| SmallestSpare(vals, held, used, rest, d) && a == used[d := used[d] + 1];
      var e: nat :| SmallestSpare(vals, held, used, rest, e) && b == used[e := used[e] + 1];
      assert d == e;
    }
  }

  lemma TrimmedUnique(vals: seq<nat>, more: seq<nat>, target: int, a: seq<nat>, b: seq<nat>)
    requires Chain(vals) && Trimmed(vals, more, target, a) && Trimmed(vals, more, target, b)
    ensures a == b
  {
    OverlapUnique(more, Change(vals, Value(vals, more) - target), a, b);
  }

  lemma OverlapUnique(more: seq<nat>, change: seq<nat>, a: seq<nat>, b: seq<nat>)
    requires OverlapRemoved(more, change, a) && OverlapRemoved(more, change, b)
    ensures a == b
  {
  }

  lemma RestUnique(vals: seq<nat>, held: seq<nat>, target: int, used: seq<nat>, rest: int, a: seq<nat>, b: seq<nat>)
    requires Chain(vals) && |held| == |vals| == |used|
    requires AlternativeTo(vals, held, target, used, rest, a) && AlternativeTo(vals, held, target, used, rest, b)
    ensures a == b
  {
    var m, s :| AlternativeVia(vals, held, target, used, rest, a, m, s);
    var n, t :| AlternativeVia(vals, held, target, used, rest, b, n, t);
    SpareUnique(vals, held, used, rest, m, n);
    TrimmedUnique(vals, m, target, s, t);
  }

  /** The four phases lead to one selection only. */
  lemma AlternativeUnique(vals: seq<nat>, held: seq<nat>, target: int, top: int, a: seq<nat>, b: seq<nat>)
    requires Chain(vals) && |held| == |vals|
    requires IsAlternative(vals, held, target, top, a) && IsAlternative(vals, held, target, top, b)
    ensures a == b
  {
    var u, x := From(vals, held, target, top, a);
    var v, y := From(vals, held, target, top, b);
    FirstPhaseUnique(vals, held, target, top, u, x, v, y);
    RestUnique(vals, held, target, u, x, a, b);
  }

  lemma From(vals: seq<nat>, held: seq<nat>, target: int, top: int, a: seq<nat>) returns (used: seq<nat>, rest: int)
    requires Chain(vals) && |held| == |vals| && IsAlternative(vals, held, target, top, a)
    ensures |used| == |vals| && FirstPhase(vals, held, target, top, used, rest)
    ensures AlternativeTo(vals, held, target, used, rest, a)
  {
    used, rest :| AlternativeFrom(vals, held, target, top, a, used, rest);
  }

  // ----- the selection it is measured against ------------------------------------------------------------------

  lemma {:induction false} CountLess(a: seq<nat>, b: seq<nat>, n: nat)
    requires |a| == |b| && n <= |a| && forall i :: 0 <= i < n ==> a[i] <= b[i]
    ensures Count(a, n) <= Count(b, n)
    ensures Count(a, n) == Count(b, n) ==> forall i :: 0 <= i < n ==> a[i] == b[i]
  {
    if n > 0 {
      CountLess(a, b, n - 1);
    }
  }

  /** Of two covers from the top one has no more coins of any kind than the other. */
  lemma CoversCompare(vals: seq<nat>, held: seq<nat>, target: int, a: seq<nat>, j: nat, b: seq<nat>, k: nat)
    requires |held| == |vals| == |a| == |b| && Within(a, held) && Within(b, held)
    requires CoversFromTop(vals, held, target, a, j) && CoversFromTop(vals, held, target, b, k)
    ensures (forall i :: 0 <= i < |a| ==> a[i] <= b[i]) || forall i :: 0 <= i < |a| ==> b[i] <= a[i]
  {
    if j > k || (j == k && a[j] <= b[j]) {
      forall i | 0 <= i < |a| ensures a[i] <= b[i] {
      }
    } else {
      forall i | 0 <= i < |a| ensures b[i] <= a[i] {
      }
    }
  }

  lemma CoversUnique(vals: seq<nat>, held: seq<nat>, target: int, a: seq<nat>, j: nat, b: seq<nat>, k: nat)
    requires Chain(vals) && |held| == |vals| == |a| == |b| && Within(a, held) && Within(b, held)
    requires Value(vals, a) >= target && Value(vals, b) >= target
    requires CoversFromTop(vals, held, target, a, j) && CoversFromTop(vals, held, target, b, k)
    ensures a == b
  {
    TopIsFewest(vals, held, target, a, j, b);
    TopIsFewest(vals, held, target, b, k, a);
    CoversCompare(vals, held, target, a, j, b, k);
    if forall i :: 0 <= i < |a| ==> a[i] <= b[i] {
      CountLess(a, b, |a|);
    } else {
      CountLess(b, a, |a|);
    }
  }

  lemma FromTopUnique(vals: seq<nat>, held: seq<nat>, target: int, a: seq<nat>, b: seq<nat>)
    requires Chain(vals) && |held| == |vals| && FromTop(vals, held, target, a) && FromTop(vals, held, target, b)
    ensures a == b
  {
    if target > 0 {
      EnoughHeld(vals, held, a);
      EnoughHeld(vals, held, b);
      if Value(vals, a) >= target && Value(vals, b) >= target {
        var j: nat :| CoversFromTop(vals, held, target, a, j);
        var k: nat :| CoversFromTop(vals, held, target, b, k);
        CoversUnique(vals, held, target, a, j, b, k);
      }
    }
  }

  lemma EnoughHeld(vals: seq<nat>, held: seq<nat>, a: seq<nat>)
    requires |held| == |vals| && Within(a, held)
    ensures Value(vals, a) <= Value(vals, held)
  {
    AboveMonotone(vals, a, held, 0);
    Split(vals, a, 0);
    Split(vals, held, 0);
  }

  lemma StartUnique(vals: seq<nat>, held: seq<nat>, target: int, a: seq<nat>, j: int, b: seq<nat>, k: int)
    requires Chain(vals) && |held| == |vals| && Started(vals, held, target, a, j) && Started(vals, held, target, b, k)
    ensures a == b && j == k
  {
    if exists over: nat :: SmallestOver(vals, held, target, over) {
      var m: nat :| SmallestOver(vals, held, target, m) && a == seq(|vals|, i => 0)[m := 1] && HighestHeld(held, m, j);
      var n: nat :| SmallestOver(vals, held, target, n) && b == seq(|vals|, i => 0)[n := 1] && HighestHeld(held, n, k);
      assert m == n;
      HighestUnique(held, m, j, k);
    } else {
      FromTopUnique(vals, held, target, a, b);
      HighestUnique(held, |vals|, j, k);
    }
  }

  lemma HighestUnique(held: seq<nat>, bound: nat, j: int, k: int)
    requires bound <= |held| && HighestHeld(held, bound, j) && HighestHeld(held, bound, k)
    ensures j == k
  {
  }

  // ----- the outcome ------------------------------------------------------------------------------------------

  lemma MinimizedUnique(maxSpends: int, count: nat, top: int, vals: seq<nat>, held: seq<nat>, target: int, saved: seq<nat>,
                        m: nat, a: seq<nat>, n: nat, b: seq<nat>)
    requires Chain(vals) && |held| == |vals|
    requires Minimized(maxSpends, count, top, vals, held, target, saved, m, a)
    requires Minimized(maxSpends, count, top, vals, held, target, saved, n, b)
    ensures m == n && a == b
  {
    var x := Decision(maxSpends, count, top, vals, held, target, saved, m, a);
    var y := Decision(maxSpends, count, top, vals, held, target, saved, n, b);
    AlternativeUnique(vals, held, target, top, x, y);
    DecidedUnique(vals, target, maxSpends, count, saved, x, m, a, y, n, b);
  }

  lemma DecidedUnique(vals: seq<nat>, target: int, maxSpends: int, count: nat, saved: seq<nat>, x: seq<nat>, m: nat, a: seq<nat>,
                      y: seq<nat>, n: nat, b: seq<nat>)
    requires Chain(vals) && |x| == |y| == |vals| && x == y
    requires Decided(vals, target, maxSpends, count, saved, x, m, a) && Decided(vals, target, maxSpends, count, saved, y, n, b)
    ensures m == n && a == b
  {
  }

  lemma Decision(maxSpends: int, count: nat, top: int, vals: seq<nat>, held: seq<nat>, target: int, saved: seq<nat>, m: nat, a: seq<nat>)
      returns (alt: seq<nat>)
    requires Chain(vals) && |held| == |vals| && Minimized(maxSpends, count, top, vals, held, target, saved, m, a)
    ensures |alt| == |vals| && IsAlternative(vals, held, target, top, alt)
    ensures Decided(vals, target, maxSpends, count, saved, alt, m, a)
  {
    alt :| MinimizedBy(maxSpends, count, top, vals, held, target, saved, m, a, alt);
  }

  lemma Start(vals: seq<nat>, held: seq<nat>, target: int, maxSpends: int, m: nat, a: seq<nat>) returns (saved: seq<nat>, top: int)
    requires Chain(vals) && |held| == |vals| && Outcome(vals, held, target, maxSpends, m, a)
    ensures |saved| == |vals| && Started(vals, held, target, saved, top)
    ensures Minimized(maxSpends, ChangeCount(vals, Value(vals, saved) - target), top, vals, held, target, saved, m, a)
  {
    assert OutcomeFor(vals, held, target, maxSpends, m, a);
    saved, top :| OutcomeBy(vals, held, target, maxSpends, m, a, saved, top);
  }

  /** From one start there is one result. */
  lemma SameStart(vals: seq<nat>, held: seq<nat>, target: int, maxSpends: int, s: seq<nat>, j: int, t: seq<nat>, k: int,
                  m: nat, a: seq<nat>, n: nat, b: seq<nat>)
    requires Chain(vals) && |held| == |vals| == |s| == |t| && s == t && j == k
    requires Minimized(maxSpends, ChangeCount(vals, Value(vals, s) - target), j, vals, held, target, s, m, a)
    requires Minimized(maxSpends, ChangeCount(vals, Value(vals, t) - target), k, vals, held, target, t, n, b)
    ensures m == n && a == b
  {
    MinimizedUnique(maxSpends, ChangeCount(vals, Value(vals, s) - target), j, vals, held, target, s, m, a, n, b);
  }

  /** calculateChange has one outcome only. */
  lemma OutcomeUnique(vals: seq<nat>, held: seq<nat>, target: int, maxSpends: int, m: nat, a: seq<nat>, n: nat, b: seq<nat>)
    requires Chain(vals) && |held| == |vals|
    requires Outcome(vals, held, target, maxSpends, m, a) && Outcome(vals, held, target, maxSpends, n, b)
    ensures m == n && a == b
  {
    var s, j := Start(vals, held, target, maxSpends, m, a);
    var t, k := Start(vals, held, target, maxSpends, n, b);
    StartUnique(vals, held, target, s, j, t, k);
    SameStart(vals, held, target, maxSpends, s, j, t, k, m, a, n, b);
  }

  // ----- an outcome in which the alternative is taken -----------------------------------------------------------

  lemma TakeIs(r: int, v: nat, held: nat, k: nat)
    requires v > 0 && k <= held && v * k <= r && (k == held || r - v * k < v)
    ensures Take(r, v, held) == k
  {
    var t := Take(r, v, held);
    WorthIsProduct(v, k);
    WorthIsProduct(v, t);
    TakeBounds(r, v, held);
    TakeIsMost(r, v, held, k);
    if k < t {
      WorthMonotone(v, k + 1, t);
    }
  }

  ghost predicate Five(vals: seq<nat>) { vals == [1, 5, 10, 50, 100] }

  lemma FiveChain(vals: seq<nat>)
    requires Five(vals)
    ensures Chain(vals)
  {
    WorthIsProduct(1, 5);
    WorthIsProduct(5, 2);
    WorthIsProduct(10, 5);
    WorthIsProduct(50, 2);
    assert Divides(1, 5) && Divides(5, 10) && Divides(10, 50) && Divides(50, 100);
    assert Link(vals, 0) && Link(vals, 1) && Link(vals, 2) && Link(vals, 3);
  }

  lemma FiveValue(vals: seq<nat>, c: seq<nat>)
    requires Five(vals) && |c| == 5
    ensures Value(vals, c) == c[0] + 5 * c[1] + 10 * c[2] + 50 * c[3] + 100 * c[4]
    ensures Count(c, 5) == c[0] + c[1] + c[2] + c[3] + c[4]
  {
    forall i | 0 <= i < 5 ensures Worth(vals[i], c[i]) == vals[i] * c[i] {
      WorthIsProduct(vals[i], c[i]);
    }
    assert Below(vals, c, 1) == c[0] && Count(c, 1) == c[0];
    assert Below(vals, c, 2) == Below(vals, c, 1) + 5 * c[1] && Count(c, 2) == c[0] + c[1];
    assert Below(vals, c, 3) == Below(vals, c, 2) + 10 * c[2] && Count(c, 3) == c[0] + c[1] + c[2];
    assert Below(vals, c, 4) == Below(vals, c, 3) + 50 * c[3] && Count(c, 4) == Count(c, 3) + c[3];
  }

  /** Greedy takes k coins of denomination n when r is missing, and r1 is missing then. */
  lemma RestStep(vals: seq<nat>, held: seq<nat>, target: int, n: nat, r: int, k: nat, r1: int)
    requires Chain(vals) && |held| == |vals| && n < |vals| && Rest(vals, held, target, n + 1) == r
    requires k <= held[n] && r1 == r - vals[n] * k && r1 >= 0 && (k == held[n] || r1 < vals[n])
    ensures Rest(vals, held, target, n) == r1 && Greedy(vals, held, target)[n] == k
  {
    TakeIs(r, vals[n], held[n], k);
    WorthIsProduct(vals[n], k);
  }

  lemma FiveGreedy(vals: seq<nat>, held: seq<nat>, target: nat, used: seq<nat>)
    requires Five(vals) && Chain(vals) && |held| == 5 && |used| == 5 && Within(used, held)
    requires var r4 := target - 100 * used[4]; var r3 := r4 - 50 * used[3]; var r2 := r3 - 10 * used[2];
      var r1 := r2 - 5 * used[1]; var r0 := r1 - used[0];
      && r4 >= 0 && r3 >= 0 && r2 >= 0 && r1 >= 0 && r0 >= 0
      && (used[4] == held[4] || r4 < 100) && (used[3] == held[3] || r3 < 50) && (used[2] == held[2] || r2 < 10)
      && (used[1] == held[1] || r1 < 5) && (used[0] == held[0] || r0 < 1)
    ensures Greedy(vals, held, target) == used
  {
    var r4 := target - 100 * used[4];
    var r3 := r4 - 50 * used[3];
    var r2 := r3 - 10 * used[2];
    var r1 := r2 - 5 * used[1];
    RestStep(vals, held, target, 4, target, used[4], r4);
    RestStep(vals, held, target, 3, r4, used[3], r3);
    RestStep(vals, held, target, 2, r3, used[2], r2);
    RestStep(vals, held, target, 1, r2, used[1], r1);
    RestStep(vals, held, target, 0, r1, used[0], r1 - used[0]);
  }

  /** Change for 75 is 50 + 10 + 10 + 5, for 5 it is one coin. */
  lemma FiveChange(vals: seq<nat>)
    requires Five(vals) && Chain(vals)
    ensures ChangeCount(vals, 75) == 4 && Change(vals, 5) == [0, 1, 0, 0, 0] && ChangeCount(vals, 5) == 1
  {
    FiveGreedy(vals, Plenty(vals, 75), 75, [0, 1, 2, 1, 0]);
    FiveGreedy(vals, Plenty(vals, 5), 5, [0, 1, 0, 0, 0]);
    FiveValue(vals, [0, 1, 2, 1, 0]);
    FiveValue(vals, [0, 1, 0, 0, 0]);
  }

  /** Three 10s and one 100 are held, 25 is wanted and three coins are allowed. */
  ghost predicate Tens(vals: seq<nat>, held: seq<nat>) { Five(vals) && held == [0, 0, 3, 0, 1] }

  lemma TensSpare(vals: seq<nat>, held: seq<nat>, below: seq<nat>, more: seq<nat>)
    requires Tens(vals, held) && below == [0, 0, 2, 0, 0] && more == [0, 0, 3, 0, 0]
    ensures SpareAdded(vals, held, below, 5, more)
  {
    assert more == below[2 := below[2] + 1];
    assert SmallestSpare(vals, held, below, 5, 2);
  }

  lemma TensTrimmed(vals: seq<nat>, more: seq<nat>, change: seq<nat>)
    requires Five(vals) && Chain(vals) && more == [0, 0, 3, 0, 0] && Value(vals, more) == 30
    requires change == Change(vals, 5) == [0, 1, 0, 0, 0]
    ensures Trimmed(vals, more, 25, more)
  {
    assert OverlapRemoved(more, change, more);
  }

  /** Phases two to four, given their results. */
  lemma Via(vals: seq<nat>, held: seq<nat>, target: int, top: int, below: seq<nat>, rest: int, more: seq<nat>, trimmed: seq<nat>, alt: seq<nat>)
    requires Chain(vals) && |held| == |vals| == |below| && FirstPhase(vals, held, target, top, below, rest)
    requires SpareAdded(vals, held, below, rest, more) && Trimmed(vals, more, target, trimmed)
    requires |trimmed| == |vals| && alt == Greedy(vals, held, Value(vals, trimmed))
    ensures IsAlternative(vals, held, target, top, alt)
  {
    assert AlternativeVia(vals, held, target, below, rest, alt, more, trimmed);
    assert AlternativeFrom(vals, held, target, top, alt, below, rest);
  }

  /** The first phase selects two 10s, a third one is spare, and none of them comes back as change. */
  lemma TensAlternative(vals: seq<nat>, held: seq<nat>, below: seq<nat>, alt: seq<nat>)
    requires Tens(vals, held) && Chain(vals) && below == [0, 0, 2, 0, 0] && alt == [0, 0, 3, 0, 0]
    ensures IsAlternative(vals, held, 25, 2, alt)
  {
    FiveValue(vals, below);
    FiveValue(vals, alt);
    TensBelow(vals, held, below);
    TensSpare(vals, held, below, alt);
    FiveChange(vals);
    TensTrimmed(vals, alt, Change(vals, 5));
    FiveGreedy(vals, held, 30, alt);
    Via(vals, held, 25, 2, below, 5, alt, alt, alt);
  }

  lemma TensBelow(vals: seq<nat>, held: seq<nat>, below: seq<nat>)
    requires Tens(vals, held) && below == [0, 0, 2, 0, 0] && Value(vals, below) == 20
    ensures FirstPhase(vals, held, 25, 2, below, 5)
  {
    assert Below(vals, below, 0) == 0 && Below(vals, below, 1) == 0 && Below(vals, below, 2) == 0;
    assert Stopped(vals, held, below, 5, 0) && Stopped(vals, held, below, 5, 1) && Stopped(vals, held, below, 5, 2);
  }

  lemma TensStart(vals: seq<nat>, held: seq<nat>, saved: seq<nat>)
    requires Tens(vals, held) && saved == [0, 0, 0, 0, 1]
    ensures Started(vals, held, 25, saved, 2)
  {
    var zero: seq<nat> := seq(|vals|, i => 0);
    assert saved == zero[4 := 1];
    assert SmallestOver(vals, held, 25, 4);
  }

  /** The outcome, given the start and the alternative. */
  lemma Taken(vals: seq<nat>, held: seq<nat>, target: int, maxSpends: int, saved: seq<nat>, top: int, alt: seq<nat>)
    requires Chain(vals) && |held| == |vals| == |saved| == |alt|
    requires Started(vals, held, target, saved, top) && IsAlternative(vals, held, target, top, alt)
    requires ChangeCount(vals, Value(vals, alt) - target) < ChangeCount(vals, Value(vals, saved) - target)
    requires Count(alt, |alt|) <= maxSpends
    ensures Outcome(vals, held, target, maxSpends, ChangeCount(vals, Value(vals, alt) - target), alt)
  {
    var m0, m := ChangeCount(vals, Value(vals, saved) - target), ChangeCount(vals, Value(vals, alt) - target);
    assert MinimizedBy(maxSpends, m0, top, vals, held, target, saved, m, alt, alt);
    assert OutcomeBy(vals, held, target, maxSpends, m, alt, saved, top);
  }

  /** The outcome is one coin of change for three 10s, where the 100 would take four. */
  lemma TensOutcome(vals: seq<nat>, held: seq<nat>, changeCount: nat, used: seq<nat>)
    requires Tens(vals, held) && Chain(vals) && Outcome(vals, held, 25, 3, changeCount, used)
    ensures changeCount == 1 && used == [0, 0, 3, 0, 0]
  {
    var saved, alt: seq<nat> := [0, 0, 0, 0, 1], [0, 0, 3, 0, 0];
    TensStart(vals, held, saved);
    TensAlternative(vals, held, [0, 0, 2, 0, 0], alt);
    TensCounts(vals, saved, alt);
    Taken(vals, held, 25, 3, saved, 2, alt);
    OutcomeUnique(vals, held, 25, 3, changeCount, used, 1, alt);
  }

  lemma TensCounts(vals: seq<nat>, saved: seq<nat>, alt: seq<nat>)
    requires Five(vals) && Chain(vals) && saved == [0, 0, 0, 0, 1] && alt == [0, 0, 3, 0, 0]
    ensures ChangeCount(vals, Value(vals, saved) - 25) == 4
    ensures ChangeCount(vals, Value(vals, alt) - 25) == 1 && Count(alt, |alt|) == 3
  {
    TensValues(vals, saved, alt);
    FiveChange(vals);
    CountOf(vals, saved, 25, 75);
    CountOf(vals, alt, 25, 5);
  }

  lemma TensValues(vals: seq<nat>, saved: seq<nat>, alt: seq<nat>)
    requires Five(vals) && saved == [0, 0, 0, 0, 1] && alt == [0, 0, 3, 0, 0]
    ensures Value(vals, saved) == 100 && Value(vals, alt) == 30 && Count(alt, |alt|) == 3
  {
    FiveValue(vals, saved);
    FiveValue(vals, alt);
  }

  lemma CountOf(vals: seq<nat>, c: seq<nat>, target: int, a: int)
    requires Chain(vals) && |c| == |vals| && Value(vals, c) - target == a
    ensures ChangeCount(vals, Value(vals, c) - target) == ChangeCount(vals, a)
  {
  }

  /** calculateChange returns it. */
  method SpendTens() returns (changeCount: nat, used: seq<nat>)
    ensures changeCount == 1 && used == [0, 0, 3, 0, 0]
  {
    var vals: seq<nat>, held: seq<nat> := [1, 5, 10, 50, 100], [0, 0, 3, 0, 1];
    FiveChain(vals);
    changeCount, used := CalculateChange(3, 25, vals, held);
    TensOutcome(vals, held, changeCount, used);
  }
}
