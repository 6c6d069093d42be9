/** Selecting coins to spend and minimising the change: the loops of the source against the
    theory of greedy selection. */
module Spending {
  import opened Denominations

  // ----- small facts ----------------------------------------------------------------

  ghost function Above(vals: seq<nat>, c: seq<nat>, n: nat): nat
    requires |c| == |vals| && n <= |vals|
    decreases |vals| - n
  {
    if n == |vals| then 0 else Worth(vals[n], c[n]) + Above(vals, c, n + 1)
  }

  lemma {:induction false} Split(vals: seq<nat>, c: seq<nat>, n: nat)
    requires |c| == |vals| && n <= |vals|
    ensures Value(vals, c) == Below(vals, c, n) + Above(vals, c, n)
    decreases |vals| - n
  {
    if n < |vals| {
      Split(vals, c, n + 1);
    }
  }

  lemma {:induction false} AboveMonotone(vals: seq<nat>, a: seq<nat>, b: seq<nat>, n: nat)
    requires |a| == |b| == |vals| && n <= |vals| && forall i :: n <= i < |vals| ==> a[i] <= b[i]
    ensures Above(vals, a, n) <= Above(vals, b, n)
    decreases |vals| - n
  {
    if n < |vals| {
      AboveMonotone(vals, a, b, n + 1);
      WorthMonotone(vals[n], a[n], b[n]);
    }
  }

  lemma {:induction false} AboveShrinks(vals: seq<nat>, c: seq<nat>, m: nat, n: nat)
    requires |c| == |vals| && m <= n <= |vals|
    ensures Above(vals, c, n) <= Above(vals, c, m)
    decreases n - m
  {
    if m < n {
      AboveShrinks(vals, c, m + 1, n);
    }
  }

  lemma {:induction false} BelowUpdate(vals: seq<nat>, c: seq<nat>, i: nat, n: nat)
    requires |c| == |vals| && i < |vals| && n <= |vals|
    ensures Below(vals, c[i := c[i] + 1], n) == Below(vals, c, n) + if i < n then vals[i] else 0
  {
    if n > 0 {
      BelowUpdate(vals, c, i, n - 1);
    }
  }

  lemma {:induction false} WorthAtLeast(v: nat, k: nat)
    requires v > 0
    ensures Worth(v, k) >= k
  {
    if k > 0 {
      WorthAtLeast(v, k - 1);
    }
  }

  lemma {:induction false} RestBounds(vals: seq<nat>, held: seq<nat>, target: int, n: nat)
    requires Chain(vals) && |held| == |vals| && n <= |vals|
    ensures target >= 0 ==> 0 <= Rest(vals, held, target, n) <= target
    ensures target < 0 ==> Rest(vals, held, target, n) == target
    decreases |vals| - n
  {
    if n < |vals| {
      RestBounds(vals, held, target, n + 1);
      TakeBounds(Rest(vals, held, target, n + 1), vals[n], held[n]);
    }
  }

  lemma GreedyUnique(vals: seq<nat>, held: seq<nat>, target: int, used: seq<nat>)
    requires Chain(vals) && |held| == |vals| && IsGreedy(vals, held, target, used, 0)
    ensures used == Greedy(vals, held, target)
  {
    var g := Greedy(vals, held, target);
    GreedyWithin(vals, held, target);
    forall i | 0 <= i < |vals| ensures used[i] == g[i] {
      assert TookGreedily(vals, held, target, used, i) && TookGreedily(vals, held, target, g, i);
    }
  }

  // ----- selection and change -------------------------------------------------------

  /** getSpendCoins: bounded greedy selection from the highest denomination down. */
  method GetSpendCoins(vals: seq<nat>, held: seq<nat>, target: int) returns (used: seq<nat>)
    requires Chain(vals) && |held| == |vals|
    ensures used == Greedy(vals, held, target) && Within(used, held)
  {
    used := seq(|vals|, i => 0);
    var remaining := target;
    for n := |vals| downto 0
      invariant |used| == |vals| && forall i :: 0 <= i < n ==> used[i] == 0
      invariant IsGreedy(vals, held, target, used, n)
      invariant remaining == Rest(vals, held, target, n)
    {
      ghost var r := remaining;
      ghost var before := used;
      while remaining >= vals[n] && used[n] < held[n]
        invariant |used| == |vals| && used == before[n := used[n]] && used[n] <= held[n]
        invariant remaining == r - Worth(vals[n], used[n])
        invariant Take(r, vals[n], held[n]) == used[n] + Take(remaining, vals[n], held[n] - used[n])
        decreases held[n] - used[n]
      {
        used := used[n := used[n] + 1];
        remaining := remaining - vals[n];
      }
      GreedyExtended(vals, held, target, before, used, n);
    }
    GreedyUnique(vals, held, target, used);
    GreedyWithin(vals, held, target);
  }

  lemma GreedyExtended(vals: seq<nat>, held: seq<nat>, target: int, before: seq<nat>, used: seq<nat>, n: nat)
    requires Chain(vals) && |held| == |vals| && n < |vals| && IsGreedy(vals, held, target, before, n + 1)
    requires |used| == |vals| && used == before[n := used[n]]
    requires used[n] == Take(Rest(vals, held, target, n + 1), vals[n], held[n])
    ensures IsGreedy(vals, held, target, used, n)
  {
    forall i | n <= i < |vals| ensures TookGreedily(vals, held, target, used, i) {
      if i > n { assert TookGreedily(vals, held, target, before, i); }
    }
  }

  function Max0(a: int): nat { if a < 0 then 0 else a }

  function Plenty(vals: seq<nat>, a: int): (c: seq<nat>)
    ensures |c| == |vals|
  {
    seq(|vals|, i => Max0(a))
  }

  /** Greedy change without limits: more coins of each kind than the amount could need. */
  ghost function Change(vals: seq<nat>, a: int): (c: seq<nat>)
    requires Chain(vals)
    ensures |c| == |vals|
  {
    Greedy(vals, Plenty(vals, a), a)
  }

  method GetChange(vals: seq<nat>, a: int) returns (change: seq<nat>)
    requires Chain(vals)
    ensures change == Change(vals, a)
  {
    ghost var held := Plenty(vals, a);
    change := seq(|vals|, i => 0);
    var remaining := a;
    for n := |vals| downto 0
      invariant |change| == |vals| && forall i :: 0 <= i < n ==> change[i] == 0
      invariant IsGreedy(vals, held, a, change, n)
      invariant remaining == Rest(vals, held, a, n)
    {
      RestBounds(vals, held, a, n + 1);
      ghost var r := remaining;
      ghost var before := change;
      while remaining >= vals[n]
        invariant |change| == |vals| && change == before[n := change[n]] && change[n] <= held[n]
        invariant remaining == r - Worth(vals[n], change[n])
        invariant Take(r, vals[n], held[n]) == change[n] + Take(remaining, vals[n], held[n] - change[n])
        decreases remaining
      {
        WorthAtLeast(vals[n], change[n]);
        change := change[n := change[n] + 1];
        remaining := remaining - vals[n];
      }
      GreedyExtended(vals, held, a, before, change, n);
    }
    GreedyUnique(vals, held, a, change);
  }

  /** Change never exceeds the amount it is for, and there is none for nothing. */
  lemma ChangeBounds(vals: seq<nat>, a: int)
    requires Chain(vals)
    ensures a >= 0 ==> Value(vals, Change(vals, a)) <= a
    ensures a <= 0 ==> forall i :: 0 <= i < |vals| ==> Change(vals, a)[i] == 0
  {
    var held := Plenty(vals, a);
    GreedyComplete(vals, held, a);
    RestBounds(vals, held, a, 0);
    var c := Change(vals, a);
    assert Within(c, held);
  }

  method GetNumberOfCoinsUsed(c: seq<nat>) returns (n: nat)
    ensures n == Count(c, |c|)
  {
    n := 0;
    for i := 0 to |c|
      invariant n == Count(c, i)
    {
      n := n + c[i];
    }
  }

  /** How many coins greedy change for an amount takes. */
  ghost function ChangeCount(vals: seq<nat>, a: int): nat
    requires Chain(vals)
  {
    Count(Change(vals, a), |vals|)
  }

  /** n is the number of coins greedy change takes for what a selection is worth beyond the
      target. */
  ghost predicate ChangeFor(vals: seq<nat>, used: seq<nat>, target: int, n: nat)
    requires Chain(vals)
  {
    |used| == |vals| && n == ChangeCount(vals, Value(vals, used) - target)
  }

  lemma NoChangeCount(vals: seq<nat>, a: int)
    requires Chain(vals) && a <= 0
    ensures ChangeCount(vals, a) == 0
  {
    ChangeBounds(vals, a);
    CountZero(Change(vals, a), |vals|);
  }

  lemma {:induction false} CountZero(c: seq<nat>, n: nat)
    requires n <= |c| && forall i :: 0 <= i < n ==> c[i] == 0
    ensures Count(c, n) == 0
  {
    if n > 0 {
      CountZero(c, n - 1);
    }
  }

  // ----- minimizeChange -------------------------------------------------------------

  /** Denomination i was left when its coins were used up or no longer smaller than what
      was missing. */
  ghost predicate Stopped(vals: seq<nat>, held: seq<nat>, used: seq<nat>, rest: int, i: nat)
    requires |held| == |vals| == |used| && i < |vals|
  {
    used[i] == held[i] || rest + Below(vals, used, i) <= vals[i]
  }

  lemma StoppedStays(vals: seq<nat>, held: seq<nat>, used: seq<nat>, rest: int, i: nat, n: nat)
    requires |held| == |vals| == |used| && n < i < |vals| && Stopped(vals, held, used, rest, i)
    ensures Stopped(vals, held, used[n := used[n] + 1], rest - vals[n], i)
  {
    BelowUpdate(vals, used, n, i);
  }

  /** A coin that is not used yet and worth more than what is missing. */
  ghost predicate Spare(vals: seq<nat>, held: seq<nat>, used: seq<nat>, remaining: int, d: nat)
    requires |held| == |vals| == |used|
  {
    d < |vals| && used[d] < held[d] && vals[d] > remaining
  }

  ghost predicate FirstPhase(vals: seq<nat>, held: seq<nat>, target: int, top: int, used: seq<nat>, remaining: int) {
    && |held| == |vals| && Within(used, held) && remaining == target - Value(vals, used)
    && (target >= 0 ==> remaining >= 0)
    && (target > 0 ==> remaining > 0)
    && (target <= 0 ==> forall i :: 0 <= i < |vals| ==> used[i] == 0)
    && (forall i :: 0 <= i < |vals| && i <= top ==> Stopped(vals, held, used, remaining, i))
    && (forall i :: 0 <= i < |vals| && i > top ==> used[i] == 0)
  }

  ghost predicate HasSpare(vals: seq<nat>, held: seq<nat>, used: seq<nat>, remaining: int)
    requires |held| == |vals| == |used|
  {
    exists d: nat :: Spare(vals, held, used, remaining, d)
  }

  /** Whatever the first phase selects, a spare coin is left to reach the target with. */
  ghost predicate AlwaysSpare(vals: seq<nat>, held: seq<nat>, target: int, top: int) {
    forall used, rest :: FirstPhase(vals, held, target, top, used, rest) ==> HasSpare(vals, held, used, rest)
  }

  /** First phase: from the denomination `top` down, as long as more is missing than one
      coin is worth. */
  method StayBelow(vals: seq<nat>, held: seq<nat>, target: int, top: int) returns (used: seq<nat>, remaining: int)
    requires Chain(vals) && |held| == |vals|
    ensures FirstPhase(vals, held, target, top, used, remaining)
  {
    used := seq(|vals|, i => 0);
    remaining := target;
    ZeroBelow(vals, used, |vals|);
    for n := |vals| downto 0
      invariant Within(used, held) && remaining == target - Value(vals, used) && (target >= 0 ==> remaining >= 0)
      invariant target > 0 ==> remaining > 0
      invariant target <= 0 ==> remaining == target && forall i :: 0 <= i < |vals| ==> used[i] == 0
      invariant forall i :: n <= i < |vals| && i <= top ==> Stopped(vals, held, used, remaining, i)
      invariant forall i :: 0 <= i < |vals| && (i < n || i > top) ==> used[i] == 0
    {
      if n <= top {
        while remaining > vals[n] && used[n] < held[n]
          invariant Within(used, held) && remaining == target - Value(vals, used) && (target >= 0 ==> remaining >= 0)
          invariant target > 0 ==> remaining > 0
          invariant target <= 0 ==> remaining == target && forall i :: 0 <= i < |vals| ==> used[i] == 0
          invariant forall i :: n < i < |vals| && i <= top ==> Stopped(vals, held, used, remaining, i)
          invariant forall i :: 0 <= i < |vals| && (i < n || i > top) ==> used[i] == 0
          decreases held[n] - used[n]
        {
          BelowUpdate(vals, used, n, |vals|);
          ghost var used', remaining' := used, remaining;
          used := used[n := used[n] + 1];
          remaining := remaining - vals[n];
          forall i | n < i < |vals| && i <= top ensures Stopped(vals, held, used, remaining, i) {
            StoppedStays(vals, held, used', remaining', i, n);
          }
        }
        ZeroBelow(vals, used, n);
      }
    }
  }

  ghost predicate SmallestSpare(vals: seq<nat>, held: seq<nat>, used: seq<nat>, remaining: int, d: nat)
    requires |held| == |vals| == |used|
  {
    Spare(vals, held, used, remaining, d) && forall e: nat :: e < d ==> !Spare(vals, held, used, remaining, e)
  }

  /** The smallest spare coin is added, if there is one; only the smallest denomination counts when more
      than the target is used already. */
  ghost predicate SpareAdded(vals: seq<nat>, held: seq<nat>, used0: seq<nat>, remaining: int, used: seq<nat>)
    requires |held| == |vals| == |used0|
  {
    if remaining < 0 then used == if vals != [] && used0[0] < held[0] then used0[0 := used0[0] + 1] else used0
    else if HasSpare(vals, held, used0, remaining)
    then exists d: nat :: SmallestSpare(vals, held, used0, remaining, d) && used == used0[d := used0[d] + 1]
    else used == used0
  }

  /** Second phase: add the smallest spare coin, if there is one.  When more than the target is
      used already only the smallest denomination is looked at. */
  method AddSpare(vals: seq<nat>, held: seq<nat>, used0: seq<nat>, remaining: int, amount0: nat)
      returns (used: seq<nat>, amount: nat, added: bool)
    requires |held| == |vals| && Within(used0, held) && amount0 == Value(vals, used0)
    ensures Within(used, held) && amount == Value(vals, used)
    ensures remaining >= 0 ==> (added <==> HasSpare(vals, held, used0, remaining))
    ensures added ==> Value(vals, used) > Value(vals, used0) + remaining
    ensures !added ==> used == used0
    ensures SpareAdded(vals, held, used0, remaining, used)
  {
    used, amount, added := used0, amount0, false;
    for d := 0 to |vals|
      invariant used == used0 && amount == amount0 && !added && (remaining < 0 ==> d == 0)
      invariant remaining >= 0 ==> forall e: nat :: e < d ==> !Spare(vals, held, used0, remaining, e)
    {
      if vals[d] > remaining && used[d] < held[d] {
        assert Spare(vals, held, used0, remaining, d);
        assert remaining >= 0 ==> SmallestSpare(vals, held, used0, remaining, d);
        BelowUpdate(vals, used, d, |vals|);
        used, amount, added := used[d := used[d] + 1], amount + vals[d], true;
        return;
      }
      if remaining < 0 {
        break;
      }
    }
  }

  function Min(a: nat, b: nat): nat { if a < b then a else b }

  /** Of each denomination as many coins are taken away as it also has in the change. */
  ghost predicate OverlapRemoved(used0: seq<nat>, change: seq<nat>, used: seq<nat>) {
    |used| == |used0| == |change| && forall d :: 0 <= d < |used| ==> used[d] == used0[d] - Min(used0[d], change[d])
  }

  /** Third phase: coins that would come straight back as change are not spent. */
  method RemoveOverlap(vals: seq<nat>, used0: seq<nat>, change0: seq<nat>, amount0: nat) returns (used: seq<nat>, amount: nat)
    requires |used0| == |change0| == |vals| && amount0 == Value(vals, used0)
    ensures Within(used, used0) && amount == Value(vals, used)
    ensures Value(vals, used) + Value(vals, change0) >= Value(vals, used0)
    ensures OverlapRemoved(used0, change0, used)
  {
    used, amount := used0, amount0;
    var change := change0;
    for d := 0 to |vals|
      invariant Trimming(vals, used0, change0, used, change, amount)
      invariant forall e :: 0 <= e < d ==> used[e] == used0[e] - Min(used0[e], change0[e])
      invariant forall e :: d <= e < |vals| ==> used[e] == used0[e] && change[e] == change0[e]
    {
      ghost var before, left := used, change;
      while change[d] > 0 && used[d] > 0
        invariant Trimming(vals, used0, change0, used, change, amount)
        invariant used == before[d := used[d]] && change == left[d := change[d]]
        invariant used0[d] + change[d] == change0[d] + used[d]
        decreases used[d]
      {
        TrimmingStep(vals, used0, change0, used, change, amount, d);
        used := used[d := used[d] - 1];
        change := change[d := change[d] - 1];
        amount := amount - vals[d];
      }
    }
  }

  /** While coins are taken away on both sides. */
  ghost predicate Trimming(vals: seq<nat>, used0: seq<nat>, change0: seq<nat>, used: seq<nat>, change: seq<nat>, amount: int)
    requires |used0| == |change0| == |vals|
  {
    && Within(used, used0) && |change| == |vals| && amount == Value(vals, used)
    && Value(vals, used) + Value(vals, change0) == Value(vals, used0) + Value(vals, change)
  }

  lemma TrimmingStep(vals: seq<nat>, used0: seq<nat>, change0: seq<nat>, used: seq<nat>, change: seq<nat>, amount: int, d: nat)
    requires |used0| == |change0| == |vals| && Trimming(vals, used0, change0, used, change, amount)
    requires d < |vals| && change[d] > 0 && used[d] > 0
    ensures amount >= vals[d]
    ensures Trimming(vals, used0, change0, used[d := used[d] - 1], change[d := change[d] - 1], amount - vals[d])
  {
    BelowUpdate(vals, used[d := used[d] - 1], d, |vals|);
    BelowUpdate(vals, change[d := change[d] - 1], d, |vals|);
    assert used[d := used[d] - 1][d := used[d]] == used && change[d := change[d] - 1][d := change[d]] == change;
  }

  /** The change of a selection is taken off it, denomination by denomination. */
  ghost predicate Trimmed(vals: seq<nat>, more: seq<nat>, target: int, trimmed: seq<nat>)
    requires Chain(vals)
  {
    |more| == |vals| && OverlapRemoved(more, Change(vals, Value(vals, more) - target), trimmed)
  }

  /** Phases two to four: a spare coin more, without what would come back as change, and the same amount
      selected greedily. */
  ghost predicate AlternativeTo(vals: seq<nat>, held: seq<nat>, target: int, used0: seq<nat>, remaining: int, alt: seq<nat>)
    requires Chain(vals) && |held| == |vals| == |used0|
  {
    exists more, trimmed :: AlternativeVia(vals, held, target, used0, remaining, alt, more, trimmed)
  }

  ghost predicate AlternativeVia(vals: seq<nat>, held: seq<nat>, target: int, used0: seq<nat>, remaining: int, alt: seq<nat>,
                                 more: seq<nat>, trimmed: seq<nat>)
    requires Chain(vals) && |held| == |vals| == |used0|
  {
    && SpareAdded(vals, held, used0, remaining, more) && Trimmed(vals, more, target, trimmed)
    && alt == Greedy(vals, held, Value(vals, trimmed))
  }

  /** All four phases. */
  ghost predicate IsAlternative(vals: seq<nat>, held: seq<nat>, target: int, top: int, alt: seq<nat>)
    requires Chain(vals) && |held| == |vals|
  {
    exists below, remaining :: AlternativeFrom(vals, held, target, top, alt, below, remaining)
  }

  ghost predicate AlternativeFrom(vals: seq<nat>, held: seq<nat>, target: int, top: int, alt: seq<nat>, below: seq<nat>, remaining: int)
    requires Chain(vals) && |held| == |vals|
  {
    FirstPhase(vals, held, target, top, below, remaining) && AlternativeTo(vals, held, target, below, remaining, alt)
  }

  /** The alternative is taken exactly if its change has fewer coins and it has not too many. */
  ghost predicate Decided(vals: seq<nat>, target: int, maxSpends: int, changeCount0: nat, saved: seq<nat>, alt: seq<nat>,
                          changeCount: nat, used: seq<nat>)
    requires Chain(vals) && |alt| == |vals|
  {
    var altCount := ChangeCount(vals, Value(vals, alt) - target);
    if altCount < changeCount0 && Count(alt, |alt|) <= maxSpends then changeCount == altCount && used == alt
    else changeCount == changeCount0 && used == saved
  }

  /** What minimizeChange returns. */
  ghost predicate Minimized(maxSpends: int, changeCount0: nat, top: int, vals: seq<nat>, held: seq<nat>, target: int, saved: seq<nat>,
                            changeCount: nat, used: seq<nat>)
    requires Chain(vals) && |held| == |vals|
  {
    exists alt :: MinimizedBy(maxSpends, changeCount0, top, vals, held, target, saved, changeCount, used, alt)
  }

  ghost predicate MinimizedBy(maxSpends: int, changeCount0: nat, top: int, vals: seq<nat>, held: seq<nat>, target: int, saved: seq<nat>,
                              changeCount: nat, used: seq<nat>, alt: seq<nat>)
    requires Chain(vals) && |held| == |vals|
  {
    && |alt| == |vals| && IsAlternative(vals, held, target, top, alt)
    && Decided(vals, target, maxSpends, changeCount0, saved, alt, changeCount, used)
  }

  /** Phases two to four on a given first phase: a selection worth at least the target if a
      spare coin was left, and the number of coins its change takes.  The re-selection in
      between is exact because the trimmed selection reaches its amount. */
  method Alternative(vals: seq<nat>, held: seq<nat>, target: int, used0: seq<nat>, remaining: int)
      returns (used: seq<nat>, changeCount: nat, ghost found: bool)
    requires Chain(vals) && |held| == |vals| && Within(used0, held)
    requires remaining == target - Value(vals, used0)
    ensures remaining >= 0 ==> (found <==> HasSpare(vals, held, used0, remaining))
    ensures Within(used, held) && ChangeFor(vals, used, target, changeCount)
    ensures found ==> Value(vals, used) >= target
    ensures !found && remaining >= 0 ==> changeCount == 0
    ensures AlternativeTo(vals, held, target, used0, remaining, used)
  {
    var more, amount, added := AddSpare(vals, held, used0, remaining, target - remaining);
    found := added;
    var trimmed, amountUsed := Trim(vals, held, target, more, amount);
    used, changeCount := Reselect(vals, held, target, trimmed, amountUsed);
    assert AlternativeVia(vals, held, target, used0, remaining, used, more, trimmed);
    if !added && remaining >= 0 {
      NoChangeCount(vals, amountUsed - target);
    }
  }

  /** Third phase, with the change it is about. */
  method Trim(vals: seq<nat>, held: seq<nat>, target: int, more: seq<nat>, amount: nat) returns (trimmed: seq<nat>, amountUsed: nat)
    requires Chain(vals) && |held| == |vals| && Within(more, held) && amount == Value(vals, more)
    ensures Within(trimmed, held) && amountUsed == Value(vals, trimmed) && Trimmed(vals, more, target, trimmed)
    ensures amount >= target ==> amountUsed >= target
    ensures amount <= target ==> amountUsed <= target
  {
    var change := GetChange(vals, amount - target);
    trimmed, amountUsed := RemoveOverlap(vals, more, change, amount);
    TrimmedReaches(vals, more, trimmed, amount - target, Value(vals, more) - amountUsed);
    if amount <= target {
      TrimmedStays(vals, more, trimmed, target);
    }
  }

  /** No more is taken off than there is change. */
  lemma TrimmedReaches(vals: seq<nat>, more: seq<nat>, trimmed: seq<nat>, excess: int, off: int)
    requires Chain(vals) && |more| == |vals| && off <= Value(vals, Change(vals, excess))
    ensures excess >= 0 ==> off <= excess
  {
    ChangeBounds(vals, excess);
  }

  /** Fourth phase: the same amount with the fewest coins, and its change. */
  method Reselect(vals: seq<nat>, held: seq<nat>, target: int, trimmed: seq<nat>, amountUsed: nat)
      returns (used: seq<nat>, changeCount: nat)
    requires Chain(vals) && |held| == |vals| && Within(trimmed, held) && amountUsed == Value(vals, trimmed)
    ensures Within(used, held) && Value(vals, used) == amountUsed && ChangeFor(vals, used, target, changeCount)
    ensures Count(used, |used|) <= Count(trimmed, |trimmed|) && used == Greedy(vals, held, amountUsed)
  {
    used := GetSpendCoins(vals, held, amountUsed);
    GreedyComplete(vals, held, amountUsed);
    GreedyFewest(vals, held, amountUsed, trimmed);
    var altChange := GetChange(vals, amountUsed - target);
    changeCount := GetNumberOfCoinsUsed(altChange);
  }

  lemma TrimmedStays(vals: seq<nat>, more: seq<nat>, trimmed: seq<nat>, target: int)
    requires |more| == |vals| && Within(trimmed, more) && Value(vals, more) <= target
    ensures Value(vals, trimmed) <= target
  {
    AboveMonotone(vals, trimmed, more, 0);
    Split(vals, trimmed, 0);
    Split(vals, more, 0);
  }

  /** minimizeChange.  The caller's selection stays unless the alternative takes fewer coins
      of change and no more spends than allowed; the alternative covers the target whenever
      a spare coin is sure to be left. */
  method MinimizeChange(maxSpends: int, changeCount0: nat, top: int, vals: seq<nat>, held: seq<nat>, target: int, saved: seq<nat>)
      returns (changeCount: nat, used: seq<nat>)
    requires Chain(vals) && |held| == |vals| && Within(saved, held)
    requires ChangeFor(vals, saved, target, changeCount0)
    ensures Within(used, held)
    ensures ChangeFor(vals, used, target, changeCount)
    ensures if changeCount < changeCount0 then Count(used, |used|) <= maxSpends else changeCount == changeCount0 && used == saved
    ensures changeCount < changeCount0 && AlwaysSpare(vals, held, target, top) ==> Value(vals, used) >= target
    ensures Minimized(maxSpends, changeCount0, top, vals, held, target, saved, changeCount, used)
  {
    var below, remaining := StayBelow(vals, held, target, top);
    var alt, altCount, found := Alternative(vals, held, target, below, remaining);
    assert AlternativeFrom(vals, held, target, top, alt, below, remaining);
    var nCoins := GetNumberOfCoinsUsed(alt);
    changeCount, used := changeCount0, saved;
    if altCount < changeCount0 && nCoins <= maxSpends {
      changeCount, used := altCount, alt;
    }
    assert MinimizedBy(maxSpends, changeCount0, top, vals, held, target, saved, changeCount, used, alt);
  }

  // ----- calculateChange ------------------------------------------------------------

  /** The other way to cover a target: whole denominations from the top, with one coin too
      many at most, at denomination m. */
  ghost predicate CoversFromTop(vals: seq<nat>, held: seq<nat>, target: int, used: seq<nat>, m: nat)
    requires |held| == |vals| == |used|
  {
    && m < |vals| && 0 < used[m] <= held[m]
    && (forall i :: m < i < |vals| ==> used[i] == held[i])
    && (forall i :: 0 <= i < m ==> used[i] == 0)
    && Value(vals, used) - vals[m] < target
  }

  /** Coins from the top until the target is covered: nothing for nothing, everything if that is not enough. */
  ghost predicate FromTop(vals: seq<nat>, held: seq<nat>, target: int, used: seq<nat>)
    requires |held| == |vals|
  {
    && Within(used, held)
    && if target <= 0 then forall i :: 0 <= i < |used| ==> used[i] == 0
       else if Value(vals, used) < target then used == held
       else exists m: nat :: CoversFromTop(vals, held, target, used, m)
  }

  method CoverFromTop(vals: seq<nat>, held: seq<nat>, target: int) returns (used: seq<nat>, ghost m: nat)
    requires |held| == |vals|
    ensures Within(used, held)
    ensures Value(vals, used) >= target || used == held
    ensures target >= 0 && Value(vals, used) > target ==> CoversFromTop(vals, held, target, used, m)
    ensures target > 0 && Value(vals, used) == target ==> CoversFromTop(vals, held, target, used, m)
    ensures FromTop(vals, held, target, used)
  {
    used := seq(|vals|, i => 0);
    m := 0;
    var remaining := target;
    ZeroBelow(vals, used, |vals|);
    var n := |vals|;
    while n > 0
      invariant 0 <= n <= |vals| && Within(used, held)
      invariant remaining == target - Value(vals, used) && (target >= 0 ==> remaining >= 0)
      invariant forall i :: 0 <= i < n ==> used[i] == 0
      invariant remaining > 0 ==> forall i :: n <= i < |vals| ==> used[i] == held[i]
      invariant target > 0 && remaining == 0 ==> n <= m && CoversFromTop(vals, held, target, used, m)
      invariant target <= 0 ==> remaining == target && forall i :: 0 <= i < |vals| ==> used[i] == 0
    {
      n := n - 1;
      while remaining > 0 && used[n] < held[n]
        invariant Within(used, held)
        invariant remaining == target - Value(vals, used)
        invariant forall i :: 0 <= i < n ==> used[i] == 0
        invariant remaining > 0 || used[n] > 0 ==> forall i :: n < i < |vals| ==> used[i] == held[i]
        invariant target >= 0 && remaining < 0 ==> CoversFromTop(vals, held, target, used, n)
        invariant target > 0 && remaining == 0 ==> n <= m && CoversFromTop(vals, held, target, used, m)
        invariant target <= 0 ==> remaining == target && forall i :: 0 <= i < |vals| ==> used[i] == 0
        decreases held[n] - used[n]
      {
        BelowUpdate(vals, used, n, |vals|);
        used := used[n := used[n] + 1];
        remaining := remaining - vals[n];
        m := n;
      }
      if remaining < 0 {
        m := n;
        return;
      }
    }
  }

  /** A selection of at most `limit` held coins covers the target. */
  ghost predicate Coverable(vals: seq<nat>, held: seq<nat>, target: int, limit: int)
    requires |held| == |vals|
  {
    exists c :: Covers(vals, held, target, limit, c)
  }

  ghost predicate Covers(vals: seq<nat>, held: seq<nat>, target: int, limit: int, c: seq<nat>)
    requires |held| == |vals|
  {
    Within(c, held) && Count(c, |c|) <= limit && Value(vals, c) >= target
  }

  /** Leaving coins worth at least v each out of those from n on costs at least v for each. */
  lemma {:induction false} AboveGap(vals: seq<nat>, c: seq<nat>, held: seq<nat>, n: nat, v: nat)
    requires |held| == |vals| && Within(c, held) && n <= |vals| && forall i :: n <= i < |vals| ==> v <= vals[i]
    ensures CountAbove(c, n) <= CountAbove(held, n)
    ensures Above(vals, c, n) + Worth(v, CountAbove(held, n) - CountAbove(c, n)) <= Above(vals, held, n)
    decreases |vals| - n
  {
    if n < |vals| {
      AboveGap(vals, c, held, n + 1, v);
      WorthMonotone(vals[n], c[n], held[n]);
      WorthSmaller(v, vals[n], held[n] - c[n]);
      WorthAdd(v, CountAbove(held, n + 1) - CountAbove(c, n + 1), held[n] - c[n]);
    }
  }

  /** Number of coins of the denominations n, n+1, ... */
  function CountAbove(c: seq<nat>, n: nat): nat
    requires n <= |c|
    decreases |c| - n
  {
    if n == |c| then 0 else c[n] + CountAbove(c, n + 1)
  }

  lemma {:induction false} CountSplits(c: seq<nat>, n: nat)
    requires n <= |c|
    ensures Count(c, |c|) == Count(c, n) + CountAbove(c, n)
    decreases |c| - n
  {
    if n < |c| {
      CountSplits(c, n + 1);
    }
  }

  lemma {:induction false} CountAboveSame(a: seq<nat>, b: seq<nat>, n: nat)
    requires |a| == |b| && n <= |a| && forall i :: n <= i < |a| ==> a[i] == b[i]
    ensures CountAbove(a, n) == CountAbove(b, n)
    decreases |a| - n
  {
    if n < |a| {
      CountAboveSame(a, b, n + 1);
    }
  }

  /** Covering from the top takes the fewest coins: the largest come first. */
  lemma TopIsFewest(vals: seq<nat>, held: seq<nat>, target: int, cover: seq<nat>, m: nat, c: seq<nat>)
    requires Chain(vals) && |held| == |vals| == |cover| && CoversFromTop(vals, held, target, cover, m)
    requires Within(c, held) && Value(vals, c) >= target
    ensures Count(cover, |cover|) <= Count(c, |c|)
  {
    var v, n := vals[m], m + 1;
    forall i | 0 <= i < |vals| ensures if i < n then vals[i] <= v else v <= vals[i] {
      if i < n { ChainAscends(vals, i, m); } else { ChainAscends(vals, m, i); }
    }
    Split(vals, cover, n);
    ZeroBelow(vals, cover, m);
    AboveFull(vals, cover, held, n);
    Split(vals, c, n);
    ManySmallCoins(vals, c, n, v);
    AboveGap(vals, c, held, n, v);
    CountZero(cover, m);
    CountSplits(cover, n);
    CountAboveSame(cover, held, n);
    CountSplits(c, n);
    FewLowCoins(v, cover[m], Count(c, n), CountAbove(held, n) - CountAbove(c, n));
  }

  lemma FewLowCoins(v: nat, k: nat, low: nat, gap: nat)
    requires k > 0 && v > 0
    ensures low < gap + k ==> Worth(v, low) <= Worth(v, gap) + Worth(v, k) - v
  {
    if low < gap + k {
      WorthMonotone(v, low, gap + (k - 1));
      WorthAdd(v, gap, k - 1);
    }
  }

  /** A selection covering from the top with one coin too many shows a spare coin for every
      selection that stayed below the target. */
  lemma OvershootShowsSpare(vals: seq<nat>, held: seq<nat>, target: int, cover: seq<nat>, m: nat, top: int, used: seq<nat>, rest: int)
    requires Chain(vals) && |held| == |vals| == |cover| && CoversFromTop(vals, held, target, cover, m)
    requires Value(vals, cover) > target >= 0
    requires FirstPhase(vals, held, target, top, used, rest)
    requires forall i :: 0 <= i < |vals| && i > top ==> held[i] == 0
    ensures Spare(vals, held, used, rest, m)
  {
    Split(vals, cover, m + 1);
    AboveFull(vals, cover, held, m + 1);
    ZeroBelow(vals, cover, m);
    forall i | m < i < |vals| ensures used[i] == held[i] {
      if used[i] != held[i] {
        SpareTooHigh(vals, held, used, rest, i, m);
      }
    }
    AboveFull(vals, used, held, m + 1);
    Split(vals, used, m + 1);
    if used[m] >= cover[m] {
      WorthMonotone(vals[m], cover[m], used[m]);
      assert false;
    }
    assert Stopped(vals, held, used, rest, m);
    if used[m] + 1 < cover[m] {
      WorthMonotone(vals[m], used[m] + 2, cover[m]);
    }
  }

  lemma {:induction false} AboveFull(vals: seq<nat>, a: seq<nat>, b: seq<nat>, n: nat)
    requires |a| == |b| == |vals| && n <= |vals| && forall i :: n <= i < |vals| ==> a[i] == b[i]
    ensures Above(vals, a, n) == Above(vals, b, n)
    decreases |vals| - n
  {
    if n < |vals| {
      AboveFull(vals, a, b, n + 1);
    }
  }

  /** A denomination above m that is not used up means the target is no more than all coins
      above m are worth. */
  lemma SpareTooHigh(vals: seq<nat>, held: seq<nat>, used: seq<nat>, rest: int, i: nat, m: nat)
    requires |held| == |vals| && Within(used, held) && m < i < |vals| && used[i] < held[i]
    requires Stopped(vals, held, used, rest, i)
    ensures Value(vals, used) + rest <= Above(vals, held, m + 1)
  {
    Split(vals, used, i);
    AboveMonotone(vals, used, held, i + 1);
    WorthMonotone(vals[i], used[i] + 1, held[i]);
    AboveShrinks(vals, held, m + 1, i);
  }

  /** top is the highest held denomination below the bound, or -1. */
  ghost predicate HighestHeld(held: seq<nat>, bound: nat, top: int)
    requires bound <= |held|
  {
    -1 <= top < bound && (top >= 0 ==> held[top] > 0) && forall i :: top < i < bound ==> held[i] == 0
  }

  /** The smallest denomination held that is worth more than the target. */
  ghost predicate SmallestOver(vals: seq<nat>, held: seq<nat>, target: int, over: nat)
    requires |held| == |vals|
  {
    && over < |vals| && target < vals[over] && held[over] > 0
    && forall i :: 0 <= i < over ==> !(target < vals[i] && held[i] > 0)
  }

  /** What the alternative is measured against: the smallest coin worth more than the target, or coins from the
      top; and the denomination the alternative starts from. */
  ghost predicate Started(vals: seq<nat>, held: seq<nat>, target: int, saved: seq<nat>, top: int)
    requires |held| == |vals|
  {
    if exists over: nat :: SmallestOver(vals, held, target, over) then
      exists over: nat :: SmallestOver(vals, held, target, over)
        && saved == seq(|vals|, i => 0)[over := 1] && HighestHeld(held, over, top)
    else FromTop(vals, held, target, saved) && HighestHeld(held, |vals|, top)
  }

  /** The outcome of calculateChange.  The quantifier keeps the phases folded where they do not matter. */
  ghost predicate Outcome(vals: seq<nat>, held: seq<nat>, target: int, maxSpends: int, changeCount: nat, used: seq<nat>)
    requires Chain(vals) && |held| == |vals|
  {
    forall n: nat :: n == changeCount ==> OutcomeFor(vals, held, target, maxSpends, n, used)
  }

  ghost predicate OutcomeFor(vals: seq<nat>, held: seq<nat>, target: int, maxSpends: int, changeCount: nat, used: seq<nat>)
    requires Chain(vals) && |held| == |vals|
  {
    exists saved, top :: OutcomeBy(vals, held, target, maxSpends, changeCount, used, saved, top)
  }

  ghost predicate OutcomeBy(vals: seq<nat>, held: seq<nat>, target: int, maxSpends: int, changeCount: nat, used: seq<nat>,
                            saved: seq<nat>, top: int)
    requires Chain(vals) && |held| == |vals|
  {
    && Started(vals, held, target, saved, top) && |saved| == |vals|
    && Minimized(maxSpends, ChangeCount(vals, Value(vals, saved) - target), top, vals, held, target, saved, changeCount, used)
  }

  /** getMaxDenomHeld, and getNextLowerDenomHeld below a given one: the highest held
      denomination below `bound`, or -1. */
  method HighestHeldBelow(held: seq<nat>, bound: nat) returns (top: int)
    requires bound <= |held|
    ensures HighestHeld(held, bound, top)
  {
    var n: int := bound;
    while n > 0
      invariant 0 <= n <= bound && forall i :: n <= i < bound ==> held[i] == 0
    {
      n := n - 1;
      if held[n] > 0 {
        return n;
      }
    }
    top := -1;
  }

  /** calculateChange.  For every target the held coins can cover, the selection covers it,
      and the number returned is exactly the number of coins of greedy change. */
  method CalculateChange(maxSpends: int, target: int, vals: seq<nat>, held: seq<nat>) returns (changeCount: nat, used: seq<nat>)
    requires Chain(vals) && |held| == |vals|
    ensures Within(used, held)
    ensures ChangeFor(vals, used, target, changeCount)
    ensures Value(vals, held) >= target ==> Value(vals, used) >= target
    ensures Value(vals, held) < target ==> used == held && changeCount == 0
    ensures Value(vals, held) >= target > 0 ==>
      (Count(used, |used|) <= maxSpends <==> Coverable(vals, held, target, maxSpends))
    ensures Outcome(vals, held, target, maxSpends, changeCount, used)
  {
    var over := 0;
    while over < |vals| && !(target < vals[over] && held[over] > 0)
      invariant 0 <= over <= |vals|
      invariant forall i :: 0 <= i < over ==> !(target < vals[i] && held[i] > 0)
    {
      over := over + 1;
    }
    if over < |vals| {
      changeCount, used := OneCoinOver(maxSpends, target, vals, held, over);
    } else {
      changeCount, used := ManyCoins(maxSpends, target, vals, held);
    }
  }

  /** Some held coin is worth more than the target. */
  method OneCoinOver(maxSpends: int, target: int, vals: seq<nat>, held: seq<nat>, over: nat)
      returns (changeCount: nat, used: seq<nat>)
    requires Chain(vals) && |held| == |vals|
    requires SmallestOver(vals, held, target, over)
    ensures Outcome(vals, held, target, maxSpends, changeCount, used)
    ensures Within(used, held) && ChangeFor(vals, used, target, changeCount)
    ensures Value(vals, used) >= target && Value(vals, held) >= target
    ensures target > 0 ==> (Count(used, |used|) <= maxSpends <==> Coverable(vals, held, target, maxSpends))
  {
    var one: seq<nat> := seq(|vals|, i => 0)[over := 1];
    var change := GetChange(vals, vals[over] - target);
    var count := GetNumberOfCoinsUsed(change);
    var top := HighestHeldBelow(held, over);
    OneIsHeld(vals, held, over, one);
    OverIsSpare(vals, held, target, over, top);
    changeCount, used := MinimizeChange(maxSpends, count, top, vals, held, target, one);
    OneOutcome(vals, held, target, maxSpends, changeCount, used, over, one, top);
    OneCoinKeeps(vals, held, target, maxSpends, over, one, used);
  }

  /** The limit is kept if anything keeps it. */
  lemma OneCoinKeeps(vals: seq<nat>, held: seq<nat>, target: int, limit: int, over: nat, one: seq<nat>, used: seq<nat>)
    requires |held| == |vals| && over < |vals| && one == seq(|vals|, i => 0)[over := 1]
    requires Within(used, held) && Value(vals, used) >= target && (used == one || Count(used, |used|) <= limit)
    ensures target > 0 ==> (Count(used, |used|) <= limit <==> Coverable(vals, held, target, limit))
  {
    if target > 0 {
      OneCoinLimit(vals, held, target, limit, over);
      FitsIsCoverable(vals, held, target, limit, used);
    }
  }

  lemma OneIsHeld(vals: seq<nat>, held: seq<nat>, over: nat, one: seq<nat>)
    requires |held| == |vals| && over < |vals| && held[over] > 0 && one == seq(|vals|, i => 0)[over := 1]
    ensures Within(one, held) && Value(vals, one) == vals[over] <= Value(vals, held)
  {
    OneCoin(vals, over);
    AboveMonotone(vals, one, held, 0);
    Split(vals, one, 0);
    Split(vals, held, 0);
  }

  lemma OneOutcome(vals: seq<nat>, held: seq<nat>, target: int, maxSpends: int, changeCount: nat, used: seq<nat>,
                   over: nat, one: seq<nat>, top: int)
    requires Chain(vals) && |held| == |vals| && SmallestOver(vals, held, target, over) && HighestHeld(held, over, top)
    requires one == seq(|vals|, i => 0)[over := 1]
    requires Minimized(maxSpends, ChangeCount(vals, Value(vals, one) - target), top, vals, held, target, one, changeCount, used)
    ensures Outcome(vals, held, target, maxSpends, changeCount, used)
  {
    assert Started(vals, held, target, one, top);
    assert OutcomeBy(vals, held, target, maxSpends, changeCount, used, one, top);
  }

  lemma OverIsSpare(vals: seq<nat>, held: seq<nat>, target: int, over: nat, top: int)
    requires |held| == |vals| && SmallestOver(vals, held, target, over) && top < over
    ensures AlwaysSpare(vals, held, target, top)
  {
    forall used1, rest1 | FirstPhase(vals, held, target, top, used1, rest1) ensures HasSpare(vals, held, used1, rest1) {
      assert Spare(vals, held, used1, rest1, over);
    }
  }

  lemma FitsIsCoverable(vals: seq<nat>, held: seq<nat>, target: int, limit: int, c: seq<nat>)
    requires |held| == |vals| && Within(c, held) && Value(vals, c) >= target
    ensures Count(c, |c|) <= limit ==> Coverable(vals, held, target, limit)
  {
    if Count(c, |c|) <= limit {
      assert Covers(vals, held, target, limit, c);
    }
  }

  /** One coin is the least that covers a positive target. */
  lemma OneCoinLimit(vals: seq<nat>, held: seq<nat>, target: int, limit: int, over: nat)
    requires |held| == |vals| && target > 0 && over < |vals|
    ensures var one := seq(|vals|, i => 0)[over := 1];
      Count(one, |one|) == 1 && (Coverable(vals, held, target, limit) ==> limit >= 1)
  {
    var zero: seq<nat> := seq(|vals|, i => 0);
    CountZero(zero, |vals|);
    CountUpdate(zero, over, |vals|);
    if Coverable(vals, held, target, limit) {
      var c :| Covers(vals, held, target, limit, c);
      if Count(c, |c|) == 0 {
        NoCoins(c, |c|);
        ZeroBelow(vals, c, |vals|);
      }
    }
  }

  lemma {:induction false} CountUpdate(c: seq<nat>, i: nat, n: nat)
    requires i < |c| && n <= |c|
    ensures Count(c[i := c[i] + 1], n) == Count(c, n) + if i < n then 1 else 0
  {
    if n > 0 {
      CountUpdate(c, i, n - 1);
    }
  }

  lemma {:induction false} NoCoins(c: seq<nat>, n: nat)
    requires n <= |c| && Count(c, n) == 0
    ensures forall i :: 0 <= i < n ==> c[i] == 0
  {
    if n > 0 {
      NoCoins(c, n - 1);
    }
  }

  lemma OneCoin(vals: seq<nat>, over: nat)
    requires over < |vals|
    ensures Value(vals, seq(|vals|, i => 0)[over := 1]) == vals[over]
  {
    var zero: seq<nat> := seq(|vals|, i => 0);
    ZeroBelow(vals, zero, |vals|);
    BelowUpdate(vals, zero, over, |vals|);
  }

  /** No held coin is worth more than the target. */
  method ManyCoins(maxSpends: int, target: int, vals: seq<nat>, held: seq<nat>) returns (changeCount: nat, used: seq<nat>)
    requires Chain(vals) && |held| == |vals|
    requires forall i :: 0 <= i < |vals| ==> !(target < vals[i] && held[i] > 0)
    ensures Outcome(vals, held, target, maxSpends, changeCount, used)
    ensures Within(used, held) && ChangeFor(vals, used, target, changeCount)
    ensures Value(vals, held) >= target ==> Value(vals, used) >= target
    ensures Value(vals, held) < target ==> used == held && changeCount == 0
    ensures Value(vals, held) >= target > 0 ==>
      (Count(used, |used|) <= maxSpends <==> Coverable(vals, held, target, maxSpends))
  {
    var cover, m := CoverFromTop(vals, held, target);
    AboveMonotone(vals, cover, held, 0);
    Split(vals, cover, 0);
    Split(vals, held, 0);
    var amount := Value(vals, cover) - target;
    var change := GetChange(vals, amount);
    var count := GetNumberOfCoinsUsed(change);
    var top := HighestHeldBelow(held, |vals|);
    if amount <= 0 {
      NoChangeCount(vals, amount);
    } else if target >= 0 {
      forall used1, rest1 | FirstPhase(vals, held, target, top, used1, rest1) ensures HasSpare(vals, held, used1, rest1) {
        OvershootShowsSpare(vals, held, target, cover, m, top, used1, rest1);
      }
    }
    changeCount, used := MinimizeChange(maxSpends, count, top, vals, held, target, cover);
    CoverOutcome(vals, held, target, maxSpends, changeCount, used, cover, top);
    if Value(vals, held) >= target > 0 {
      CoverLimit(vals, held, target, maxSpends, cover, m);
      FitsIsCoverable(vals, held, target, maxSpends, used);
    }
  }

  lemma CoverOutcome(vals: seq<nat>, held: seq<nat>, target: int, maxSpends: int, changeCount: nat, used: seq<nat>,
                     cover: seq<nat>, top: int)
    requires Chain(vals) && |held| == |vals| && FromTop(vals, held, target, cover) && HighestHeld(held, |vals|, top)
    requires forall i :: 0 <= i < |vals| ==> !(target < vals[i] && held[i] > 0)
    requires Minimized(maxSpends, ChangeCount(vals, Value(vals, cover) - target), top, vals, held, target, cover, changeCount, used)
    ensures Outcome(vals, held, target, maxSpends, changeCount, used)
  {
    assert Started(vals, held, target, cover, top);
    assert OutcomeBy(vals, held, target, maxSpends, changeCount, used, cover, top);
  }

  /** The cover keeps a limit on the coins exactly when some selection does. */
  lemma CoverLimit(vals: seq<nat>, held: seq<nat>, target: int, limit: int, cover: seq<nat>, m: nat)
    requires Chain(vals) && |held| == |vals| && Within(cover, held) && Value(vals, cover) >= target
    requires CoversFromTop(vals, held, target, cover, m)
    ensures Count(cover, |cover|) <= limit <==> Coverable(vals, held, target, limit)
  {
    FitsIsCoverable(vals, held, target, limit, cover);
    if Coverable(vals, held, target, limit) {
      var c :| Covers(vals, held, target, limit, c);
      TopIsFewest(vals, held, target, cover, m, c);
    }
  }
}
