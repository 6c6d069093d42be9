/** Coin denominations in which each value divides the next: bounded greedy selection
    reaches every amount that any selection reaches.

    Denominations are indices 0, 1, ... into an ascending list of values; a selection is a
    list of counts. */
module Denominations {

  /** The value of k coins worth v each. */
  function Worth(v: nat, k: nat): (w: nat)
  {
    if k == 0 then 0 else Worth(v, k - 1) + v
  }

  lemma {:induction false} WorthIsProduct(v: nat, k: nat)
    ensures Worth(v, k) == v * k
  {
    if k > 0 {
      WorthIsProduct(v, k - 1);
      assert v * k == v * (k - 1) + v;
    }
  }

  ghost predicate Divides(a: nat, b: nat) {
    a > 0 && exists k: nat :: Worth(a, k) == b
  }

  /** Ascending values, each a multiple of the one before. */
  ghost predicate Chain(vals: seq<nat>) {
    && (forall i :: 0 <= i < |vals| ==> vals[i] > 0)
    && (forall i :: 0 <= i < |vals| - 1 ==> Link(vals, i))
  }

  ghost predicate Link(vals: seq<nat>, i: int)
    requires 0 <= i < |vals| - 1
  {
    vals[i] < vals[i + 1] && Divides(vals[i], vals[i + 1])
  }

  /** Value of the coins of the denominations below n. */
  function Below(vals: seq<nat>, c: seq<nat>, n: nat): (v: nat)
    requires |c| == |vals| && n <= |vals|
  {
    if n == 0 then 0 else Below(vals, c, n - 1) + Worth(vals[n - 1], c[n - 1])
  }

  function Value(vals: seq<nat>, c: seq<nat>): nat
    requires |c| == |vals|
  {
    Below(vals, c, |vals|)
  }

  ghost predicate Within(c: seq<nat>, held: seq<nat>) {
    |c| == |held| && forall i :: 0 <= i < |c| ==> c[i] <= held[i]
  }

  /** Some selection of the held coins is worth exactly the target. */
  ghost predicate Reachable(vals: seq<nat>, held: seq<nat>, target: int)
    requires |held| == |vals|
  {
    exists c :: Within(c, held) && Value(vals, c) == target
  }

  /** Number of coins of the denominations below n. */
  function Count(c: seq<nat>, n: nat): nat
    requires n <= |c|
  {
    if n == 0 then 0 else Count(c, n - 1) + c[n - 1]
  }

  // ----- multiples ----------------------------------------------------------------

  lemma {:induction false} WorthAdd(v: nat, a: nat, b: nat)
    ensures Worth(v, a + b) == Worth(v, a) + Worth(v, b)
  {
    if b > 0 {
      WorthAdd(v, a, b - 1);
      assert a + b - 1 == a + (b - 1);
    }
  }

  lemma WorthMonotone(v: nat, a: nat, b: nat)
    requires a <= b
    ensures Worth(v, a) <= Worth(v, b)
    ensures Worth(v, b - a) == Worth(v, b) - Worth(v, a)
  {
    WorthAdd(v, a, b - a);
  }

  lemma Quotient(a: nat, b: nat) returns (q: nat)
    requires Divides(a, b)
    ensures b == Worth(a, q)
  {
    q :| Worth(a, q) == b;
  }

  lemma {:induction false} DividesTrans(a: nat, b: nat, q: nat)
    requires Divides(a, b)
    ensures Divides(a, Worth(b, q))
  {
    if q == 0 {
      assert Worth(a, 0) == 0;
    } else {
      DividesTrans(a, b, q - 1);
      var x := Quotient(a, Worth(b, q - 1));
      var y := Quotient(a, b);
      WorthAdd(a, x, y);
    }
  }

  // ----- sums -----------------------------------------------------------------------

  lemma {:induction false} BelowSame(vals: seq<nat>, a: seq<nat>, b: seq<nat>, n: nat)
    requires |a| == |b| == |vals| && n <= |vals|
    requires forall i :: 0 <= i < n ==> a[i] == b[i]
    ensures Below(vals, a, n) == Below(vals, b, n)
  {
    if n > 0 {
      BelowSame(vals, a, b, n - 1);
    }
  }

  lemma {:induction false} CountSame(a: seq<nat>, b: seq<nat>, n: nat)
    requires |a| == |b| && n <= |a| && forall i :: 0 <= i < n ==> a[i] == b[i]
    ensures Count(a, n) == Count(b, n)
  {
    if n > 0 {
      CountSame(a, b, n - 1);
    }
  }

  /** Splitting a selection splits its value. */
  lemma {:induction false} BelowAdd(vals: seq<nat>, a: seq<nat>, b: seq<nat>, d: seq<nat>, n: nat)
    requires |a| == |b| == |d| == |vals| && n <= |vals|
    requires forall i :: 0 <= i < n ==> d[i] + b[i] == a[i]
    ensures Below(vals, a, n) == Below(vals, b, n) + Below(vals, d, n)
    ensures Count(a, n) == Count(b, n) + Count(d, n)
  {
    if n > 0 {
      BelowAdd(vals, a, b, d, n - 1);
      WorthAdd(vals[n - 1], d[n - 1], b[n - 1]);
    }
  }

  lemma {:induction false} ZeroBelow(vals: seq<nat>, c: seq<nat>, n: nat)
    requires |c| == |vals| && n <= |vals| && forall i :: 0 <= i < n ==> c[i] == 0
    ensures Below(vals, c, n) == 0
  {
    if n > 0 {
      ZeroBelow(vals, c, n - 1);
    }
  }

  function Minus(a: seq<nat>, b: seq<nat>): (d: seq<nat>)
    requires Within(b, a)
    ensures Within(d, a) && forall i :: 0 <= i < |a| ==> d[i] + b[i] == a[i]
  {
    seq(|a|, i requires 0 <= i < |a| => a[i] - b[i])
  }

  /** Coins worth less than v each: it takes at least k of them to be worth k times v. */
  lemma {:induction false} ManySmallCoins(vals: seq<nat>, c: seq<nat>, n: nat, v: nat)
    requires |c| == |vals| && n <= |vals| && forall i :: 0 <= i < n ==> vals[i] <= v
    ensures Below(vals, c, n) <= Worth(v, Count(c, n))
  {
    if n > 0 {
      ManySmallCoins(vals, c, n - 1, v);
      WorthSmaller(vals[n - 1], v, c[n - 1]);
      WorthAdd(v, Count(c, n - 1), c[n - 1]);
    }
  }

  lemma {:induction false} WorthSmaller(a: nat, b: nat, k: nat)
    requires a <= b
    ensures Worth(a, k) <= Worth(b, k)
  {
    if k > 0 {
      WorthSmaller(a, b, k - 1);
    }
  }

  lemma {:induction false} ChainAscends(vals: seq<nat>, i: nat, j: nat)
    requires Chain(vals) && i <= j < |vals|
    ensures vals[i] <= vals[j]
    decreases j - i
  {
    if i < j {
      assert Link(vals, j - 1);
      ChainAscends(vals, i, j - 1);
    }
  }

  // ----- the exchange argument -----------------------------------------------------

  /** From coins worth at least T, where T is a multiple of the largest of them, some can be
      taken that are worth exactly T. */
  lemma {:induction false} Extract(vals: seq<nat>, c: seq<nat>, n: nat, T: nat) returns (d: seq<nat>)
    requires Chain(vals) && |c| == |vals| && n <= |vals|
    requires n > 0 ==> Divides(vals[n - 1], T)
    requires Below(vals, c, n) >= T
    ensures Within(d, c) && Below(vals, d, n) == T
  {
    if n == 0 {
      d := seq(|c|, i => 0);
    } else {
      var w, m := vals[n - 1], c[n - 1];
      var q := Quotient(w, T);
      if m >= q {
        d := seq(|c|, i => 0)[n - 1 := q];
        ZeroBelow(vals, d, n - 1);
      } else {
        WorthMonotone(w, m, q);
        if n > 1 {
          assert Link(vals, n - 2);
          DividesTrans(vals[n - 2], w, q - m);
        }
        var e := Extract(vals, c, n - 1, Worth(w, q - m));
        d := e[n - 1 := m];
        BelowSame(vals, d, e, n - 1);
      }
    }
  }

  /** How many coins of value v greedy takes, one by one, when r is still missing. */
  function Take(r: int, v: nat, held: nat): (t: nat)
    requires v > 0
    ensures t <= held
    decreases held
  {
    if r < v || held == 0 then 0 else 1 + Take(r - v, v, held - 1)
  }

  /** What is missing after greedy went through the denominations n, n+1, ..., from the top. */
  ghost function Rest(vals: seq<nat>, held: seq<nat>, target: int, n: nat): int
    requires Chain(vals) && |held| == |vals| && n <= |vals|
    decreases |vals| - n
  {
    if n == |vals| then target
    else
      var r := Rest(vals, held, target, n + 1);
      r - Worth(vals[n], Take(r, vals[n], held[n]))
  }

  ghost predicate IsGreedy(vals: seq<nat>, held: seq<nat>, target: int, used: seq<nat>, n: nat)
    requires Chain(vals)
  {
    |held| == |vals| == |used| && forall i :: n <= i < |vals| ==> TookGreedily(vals, held, target, used, i)
  }

  /** The count of denomination i is what greedy takes of it. */
  ghost predicate TookGreedily(vals: seq<nat>, held: seq<nat>, target: int, used: seq<nat>, i: nat)
    requires Chain(vals) && |held| == |vals| == |used| && i < |vals|
  {
    used[i] == Take(Rest(vals, held, target, i + 1), vals[i], held[i])
  }

  ghost function Greedy(vals: seq<nat>, held: seq<nat>, target: int): (used: seq<nat>)
    requires Chain(vals) && |held| == |vals|
    ensures |used| == |vals|
  {
    seq(|vals|, i requires 0 <= i < |vals| => Take(Rest(vals, held, target, i + 1), vals[i], held[i]))
  }

  lemma GreedyWithin(vals: seq<nat>, held: seq<nat>, target: int)
    requires Chain(vals) && |held| == |vals|
    ensures Within(Greedy(vals, held, target), held) && IsGreedy(vals, held, target, Greedy(vals, held, target), 0)
  {
    var used := Greedy(vals, held, target);
    forall i | 0 <= i < |vals| ensures TookGreedily(vals, held, target, used, i) && used[i] <= held[i] { }
  }

  /** Greedy never takes more than is missing, and stops at a denomination only when its
      coins are used up or too big. */
  lemma {:induction false} TakeBounds(r: int, v: nat, held: nat)
    requires v > 0
    ensures var t := Take(r, v, held);
      && (r >= 0 ==> Worth(v, t) <= r)
      && (t == held || r - Worth(v, t) < v)
    decreases held
  {
    if r >= v && held > 0 {
      TakeBounds(r - v, v, held - 1);
    }
  }

  lemma {:induction false} TakeIsMost(r: int, v: nat, held: nat, k: nat)
    requires v > 0 && k <= held && Worth(v, k) <= r
    ensures k <= Take(r, v, held)
    decreases held
  {
    if k > 0 {
      TakeIsMost(r - v, v, held - 1, k - 1);
    }
  }

  /** One greedy step: if e reaches r with the denominations up to n, then what greedy leaves
      of r is reached with the denominations below n. */
  lemma GreedyStep(vals: seq<nat>, held: seq<nat>, e: seq<nat>, n: nat, r: int) returns (d: seq<nat>)
    requires Chain(vals) && Within(e, held) && |held| == |vals| && n < |vals|
    requires Below(vals, e, n + 1) == r
    ensures Within(d, held) && Below(vals, d, n) == r - Worth(vals[n], Take(r, vals[n], held[n]))
    ensures Count(d, n) + Take(r, vals[n], held[n]) <= Count(e, n + 1)
  {
    var v := vals[n];
    var t := Take(r, v, held[n]);
    TakeBounds(r, v, held[n]);
    TakeIsMost(r, v, held[n], e[n]);
    WorthMonotone(v, e[n], t);
    if n > 0 {
      assert Link(vals, n - 1);
      DividesTrans(vals[n - 1], v, t - e[n]);
    }
    var x := Extract(vals, e, n, Worth(v, t - e[n]));
    d := Minus(e, x);
    BelowAdd(vals, e, x, d, n);
    forall i | 0 <= i < n ensures vals[i] <= v { ChainAscends(vals, i, n); }
    ManySmallCoins(vals, x, n, v);
    if t - e[n] > Count(x, n) { WorthMonotone(v, Count(x, n) + 1, t - e[n]); }
  }

  /** Greedy keeps every reachable amount reachable, one denomination after the other, and
      never with more coins. */
  lemma {:induction false} GreedyStaysReachable(vals: seq<nat>, held: seq<nat>, target: int, c: seq<nat>, g: seq<nat>, n: nat)
      returns (d: seq<nat>)
    requires Chain(vals) && Within(c, held) && |held| == |vals| && Value(vals, c) == target && n <= |vals|
    requires IsGreedy(vals, held, target, g, 0)
    ensures Within(d, held) && Below(vals, d, n) == Rest(vals, held, target, n)
    ensures Count(d, n) + Count(g, |g|) - Count(g, n) <= Count(c, |c|)
    decreases |vals| - n
  {
    if n == |vals| {
      d := c;
    } else {
      var e := GreedyStaysReachable(vals, held, target, c, g, n + 1);
      d := GreedyStep(vals, held, e, n, Rest(vals, held, target, n + 1));
      assert TookGreedily(vals, held, target, g, n);
    }
  }

  lemma {:induction false} RestIsTargetMinusUsed(vals: seq<nat>, held: seq<nat>, target: int, used: seq<nat>, n: nat)
    requires Chain(vals) && n <= |vals| && IsGreedy(vals, held, target, used, n)
    ensures Rest(vals, held, target, n) == target - Value(vals, used) + Below(vals, used, n)
    decreases |vals| - n
  {
    if n < |vals| {
      RestIsTargetMinusUsed(vals, held, target, used, n + 1);
      assert TookGreedily(vals, held, target, used, n);
    }
  }

  /** Bounded greedy selection meets the target exactly if and only if some selection does. */
  lemma GreedyComplete(vals: seq<nat>, held: seq<nat>, target: int)
    requires Chain(vals) && |held| == |vals|
    ensures Within(Greedy(vals, held, target), held)
    ensures Value(vals, Greedy(vals, held, target)) == target <==> Reachable(vals, held, target)
    ensures Value(vals, Greedy(vals, held, target)) == target - Rest(vals, held, target, 0)
  {
    var used := Greedy(vals, held, target);
    GreedyWithin(vals, held, target);
    RestIsTargetMinusUsed(vals, held, target, used, 0);
    if Reachable(vals, held, target) {
      var c :| Within(c, held) && Value(vals, c) == target;
      var d := GreedyStaysReachable(vals, held, target, c, Greedy(vals, held, target), 0);
    }
  }

  /** Among all selections that meet the target exactly, greedy uses the fewest coins. */
  lemma GreedyFewest(vals: seq<nat>, held: seq<nat>, target: int, c: seq<nat>)
    requires Chain(vals) && |held| == |vals| && Within(c, held) && Value(vals, c) == target
    ensures Count(Greedy(vals, held, target), |vals|) <= Count(c, |c|)
  {
    GreedyWithin(vals, held, target);
    var d := GreedyStaysReachable(vals, held, target, c, Greedy(vals, held, target), 0);
  }
}
