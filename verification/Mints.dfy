/** Choosing mints for a selection of coins: the passes of the source over the list of mints. */
module Mints {
  import opened Denominations
  import opened Spending

  datatype Mint = Mint(denom: nat, isUsed: bool)

  /** Unused mints of one denomination, from position j on. */
  function Available(mints: seq<Mint>, d: nat, j: nat): nat
    requires j <= |mints|
    decreases |mints| - j
  {
    if j == |mints| then 0
    else Available(mints, d, j + 1) + if !mints[j].isUsed && mints[j].denom == d then 1 else 0
  }

  function HeldOf(mints: seq<Mint>, n: nat): (held: seq<nat>)
    ensures |held| == n
  {
    seq(n, d requires 0 <= d < n => Available(mints, d, 0))
  }

  /** One pass of getIdealSpends over the list, for one denomination. */
  method TakeFromList(v: nat, n: nat, r: int, mints: seq<Mint>) returns (taken: nat, remaining: int)
    requires v > 0
    ensures taken == Take(r, v, Available(mints, n, 0)) && remaining == r - Worth(v, taken)
  {
    taken, remaining := 0, r;
    var j := 0;
    while j < |mints|
      invariant 0 <= j <= |mints| && remaining == r - Worth(v, taken)
      invariant Take(r, v, Available(mints, n, 0)) == taken + Take(remaining, v, Available(mints, n, j))
    {
      if !mints[j].isUsed {
        if remaining >= v && n == mints[j].denom {
          taken := taken + 1;
          remaining := remaining - v;
        }
        if remaining < v {
          break;
        }
      }
      j := j + 1;
    }
  }

  /** getIdealSpends goes through the list once per denomination, and it is complete: it
      reports success exactly when some selection of the unused mints meets the target. */
  method GetIdealSpends(vals: seq<nat>, target: int, mints: seq<Mint>) returns (exact: bool, used: seq<nat>)
    requires Chain(vals)
    ensures used == Greedy(vals, HeldOf(mints, |vals|), target) && Within(used, HeldOf(mints, |vals|))
    ensures exact <==> Reachable(vals, HeldOf(mints, |vals|), target)
    ensures exact <==> Value(vals, used) == target
  {
    ghost var held := HeldOf(mints, |vals|);
    used := seq(|vals|, i => 0);
    var remaining := target;
    for n := |vals| downto 0
      invariant |used| == |vals| && forall i :: 0 <= i < n ==> used[i] == 0
      invariant IsGreedy(vals, held, target, used, n)
      invariant remaining == Rest(vals, held, target, n)
    {
      ghost var before := used;
      var taken, rest := TakeFromList(vals[n], n, remaining, mints);
      used, remaining := used[n := taken], rest;
      GreedyExtended(vals, held, target, before, used, n);
    }
    exact := remaining == 0;
    GreedyUnique(vals, held, target, used);
    GreedyComplete(vals, held, target);
  }

  // ----- getSpends --------------------------------------------------------------------

  predicate Usable(mint: Mint, n: nat) { !mint.isUsed && mint.denom == n }

  /** The positions one pass over the list from j on picks when k mints of denomination n are
      still wanted. */
  function OnePass(mints: seq<Mint>, n: nat, k: nat, j: nat): seq<nat>
    requires j <= |mints|
    decreases |mints| - j
  {
    if j == |mints| then []
    else if Usable(mints[j], n) && k > 0 then [j] + OnePass(mints, n, k - 1, j + 1)
    else OnePass(mints, n, k, j + 1)
  }

  lemma {:induction false} OnePassCount(mints: seq<Mint>, n: nat, k: nat, j: nat)
    requires j <= |mints|
    ensures |OnePass(mints, n, k, j)| == if k <= Available(mints, n, j) then k else Available(mints, n, j)
    decreases |mints| - j
  {
    if j < |mints| {
      OnePassCount(mints, n, if Usable(mints[j], n) && k > 0 then k - 1 else k, j + 1);
    }
  }

  /** Positions of usable mints from j on, in ascending order. */
  ghost predicate Ascending(mints: seq<Mint>, n: nat, j: nat, p: seq<nat>) {
    && (forall i :: 0 <= i < |p| ==> j <= p[i] < |mints| && Usable(mints[p[i]], n))
    && (forall i, l :: 0 <= i < l < |p| ==> p[i] < p[l])
  }

  lemma {:induction false} OnePassPlaces(mints: seq<Mint>, n: nat, k: nat, j: nat)
    requires j <= |mints|
    ensures Ascending(mints, n, j, OnePass(mints, n, k, j))
    decreases |mints| - j
  {
    if j < |mints| {
      var l := if Usable(mints[j], n) && k > 0 then k - 1 else k;
      OnePassPlaces(mints, n, l, j + 1);
      PlacesNext(mints, n, j, OnePass(mints, n, l, j + 1));
    }
  }

  lemma PlacesNext(mints: seq<Mint>, n: nat, j: nat, p: seq<nat>)
    requires j < |mints| && Ascending(mints, n, j + 1, p)
    ensures Ascending(mints, n, j, p) && (Usable(mints[j], n) ==> Ascending(mints, n, j, [j] + p))
  {
  }

  /** A pass picks distinct usable mints, as many as are wanted and there are. */
  lemma OnePassPicks(mints: seq<Mint>, n: nat, k: nat, j: nat)
    requires j <= |mints|
    ensures var p := OnePass(mints, n, k, j);
      && |p| == (if k <= Available(mints, n, j) then k else Available(mints, n, j))
      && (forall i :: 0 <= i < |p| ==> j <= p[i] < |mints| && Usable(mints[p[i]], n))
      && (forall i, l :: 0 <= i < l < |p| ==> p[i] < p[l])
  {
    OnePassCount(mints, n, k, j);
    OnePassPlaces(mints, n, k, j);
  }

  /** What is still wanted after r passes. */
  function Left(mints: seq<Mint>, n: nat, k: nat, r: nat): nat {
    if r == 0 then k
    else
      var l := Left(mints, n, k, r - 1);
      if l <= Available(mints, n, 0) then 0 else l - Available(mints, n, 0)
  }

  /** The do-while loop of one denomination ends after some number of passes, at least one. */
  ghost predicate Ends(mints: seq<Mint>, n: nat, k: nat) {
    exists r: nat :: r > 0 && Left(mints, n, k, r) == 0
  }

  lemma {:induction false} LeftStays(mints: seq<Mint>, n: nat, k: nat, r: nat)
    requires Available(mints, n, 0) == 0
    ensures Left(mints, n, k, r) == k
  {
    if r > 0 {
      LeftStays(mints, n, k, r - 1);
    }
  }

  lemma {:induction false} LeftShrinks(mints: seq<Mint>, n: nat, k: nat, r: nat)
    requires Available(mints, n, 0) > 0
    ensures Left(mints, n, k, r) <= (if r <= k then k - r else 0)
  {
    if r > 0 {
      LeftShrinks(mints, n, k, r - 1);
    }
  }

  /** The loop ends if and only if nothing is wanted or some mint can be picked. */
  lemma EndsIff(mints: seq<Mint>, n: nat, k: nat)
    ensures Ends(mints, n, k) <==> k == 0 || Available(mints, n, 0) > 0
  {
    if Available(mints, n, 0) > 0 {
      LeftShrinks(mints, n, k, k + 1);
      assert Left(mints, n, k, k + 1) == 0;
    } else {
      forall r: nat ensures Left(mints, n, k, r) == k {
        LeftStays(mints, n, k, r);
      }
      assert k == 0 ==> Left(mints, n, k, 1) == 0;
    }
  }

  /** Everything the loop of one denomination picks. */
  function Passes(mints: seq<Mint>, n: nat, k: nat): (p: seq<nat>)
    requires k == 0 || Available(mints, n, 0) > 0
    decreases k
  {
    OnePassPicks(mints, n, k, 0);
    var first := OnePass(mints, n, k, 0);
    if |first| == k then first else first + Passes(mints, n, k - |first|)
  }

  /** As many picks as wanted, all usable; no mint twice exactly if there were enough. */
  lemma {:induction false} PassesPick(mints: seq<Mint>, n: nat, k: nat)
    requires k == 0 || Available(mints, n, 0) > 0
    ensures var p := Passes(mints, n, k);
      && |p| == k
      && (forall i :: 0 <= i < |p| ==> p[i] < |mints| && Usable(mints[p[i]], n))
      && (Distinct(p) <==> k <= Available(mints, n, 0))
    decreases k
  {
    OnePassPicks(mints, n, k, 0);
    var first := OnePass(mints, n, k, 0);
    if |first| < k {
      var rest := Passes(mints, n, k - |first|);
      PassesPick(mints, n, k - |first|);
      FirstAgain(mints, n, k, k - |first|, 0);
      OnePassPicks(mints, n, k - |first|, 0);
      assert rest[0] == OnePass(mints, n, k - |first|, 0)[0];
      assert (first + rest)[0] == (first + rest)[|first|];
    }
  }

  ghost predicate Distinct(p: seq<nat>) {
    forall i, l :: 0 <= i < l < |p| ==> p[i] != p[l]
  }

  /** Every pass that picks anything starts with the same mint. */
  lemma {:induction false} FirstAgain(mints: seq<Mint>, n: nat, k: nat, l: nat, j: nat)
    requires j <= |mints| && k > 0 && l > 0 && Available(mints, n, j) > 0
    ensures |OnePass(mints, n, k, j)| > 0 && |OnePass(mints, n, l, j)| > 0
    ensures OnePass(mints, n, k, j)[0] == OnePass(mints, n, l, j)[0]
    decreases |mints| - j
  {
    if j < |mints| && !Usable(mints[j], n) {
      FirstAgain(mints, n, k, l, j + 1);
    }
  }

  /** One pass of getSpends over the list, for one denomination. */
  method PickFromList(mints: seq<Mint>, n: nat, k: nat) returns (picked: seq<nat>)
    ensures picked == OnePass(mints, n, k, 0)
  {
    picked := [];
    var wanted := k;
    var j := 0;
    while j < |mints|
      invariant 0 <= j <= |mints| && 0 <= wanted <= k
      invariant OnePass(mints, n, k, 0) == picked + OnePass(mints, n, wanted, j)
    {
      if !mints[j].isUsed && mints[j].denom == n && wanted > 0 {
        picked := picked + [j];
        wanted := wanted - 1;
      }
      j := j + 1;
    }
  }

  /** What is picked so far, and what a pass and those after it add. */
  lemma PassesStep(mints: seq<Mint>, n: nat, k: nat, picked: seq<nat>)
    requires k > 0 && Available(mints, n, 0) > 0
    ensures var first := OnePass(mints, n, k, 0);
      && 0 < |first| <= k
      && picked + Passes(mints, n, k) ==
           (picked + first) + (if |first| == k then [] else Passes(mints, n, k - |first|))
  {
    OnePassPicks(mints, n, k, 0);
  }

  /** The do-while loop of getSpends for one denomination. */
  method PickAll(mints: seq<Mint>, n: nat, k: nat) returns (picked: seq<nat>)
    requires k == 0 || Available(mints, n, 0) > 0
    ensures picked == Passes(mints, n, k)
  {
    picked := PickFromList(mints, n, k);
    OnePassPicks(mints, n, k, 0);
    var wanted: nat := k - |picked|;
    while wanted > 0
      invariant 0 <= wanted < k || k == 0
      invariant wanted > 0 ==> Available(mints, n, 0) > 0
      invariant Passes(mints, n, k) == picked + (if wanted == 0 then [] else Passes(mints, n, wanted))
      decreases wanted
    {
      var more := PickFromList(mints, n, wanted);
      PassesStep(mints, n, wanted, picked);
      picked := picked + more;
      wanted := wanted - |more|;
    }
  }

  /** How many of the selected positions hold a mint of denomination d. */
  function Selected(mints: seq<Mint>, picked: seq<nat>, d: nat): nat
    requires forall i :: 0 <= i < |picked| ==> picked[i] < |mints|
  {
    if picked == [] then 0
    else Selected(mints, picked[..|picked| - 1], d) + if mints[picked[|picked| - 1]].denom == d then 1 else 0
  }

  /** Picking more mints of one denomination. */
  lemma {:induction false} SelectedConcat(mints: seq<Mint>, picked: seq<nat>, more: seq<nat>, n: nat, d: nat)
    requires forall i :: 0 <= i < |picked| ==> picked[i] < |mints|
    requires forall i :: 0 <= i < |more| ==> more[i] < |mints| && mints[more[i]].denom == n
    ensures forall i :: 0 <= i < |picked + more| ==> (picked + more)[i] < |mints|
    ensures Selected(mints, picked + more, d) == Selected(mints, picked, d) + if n == d then |more| else 0
    decreases |more|
  {
    if more == [] {
      assert picked + more == picked;
    } else {
      var last := |more| - 1;
      SelectedConcat(mints, picked, more[..last], n, d);
      assert (picked + more)[..|picked + more| - 1] == picked + more[..last];
    }
  }

  /** What the picked mints are worth. */
  function PickedValue(vals: seq<nat>, mints: seq<Mint>, picked: seq<nat>): nat
    requires forall i :: 0 <= i < |picked| ==> picked[i] < |mints| && mints[picked[i]].denom < |vals|
  {
    if picked == [] then 0
    else PickedValue(vals, mints, picked[..|picked| - 1]) + vals[mints[picked[|picked| - 1]].denom]
  }

  lemma {:induction false} PickedConcat(vals: seq<nat>, mints: seq<Mint>, picked: seq<nat>, more: seq<nat>, n: nat)
    requires n < |vals|
    requires forall i :: 0 <= i < |picked| ==> picked[i] < |mints| && mints[picked[i]].denom < |vals|
    requires forall i :: 0 <= i < |more| ==> more[i] < |mints| && mints[more[i]].denom == n
    ensures forall i :: 0 <= i < |picked + more| ==> (picked + more)[i] < |mints| && mints[(picked + more)[i]].denom < |vals|
    ensures PickedValue(vals, mints, picked + more) == PickedValue(vals, mints, picked) + Worth(vals[n], |more|)
    decreases |more|
  {
    if more == [] {
      assert picked + more == picked;
    } else {
      var last := |more| - 1;
      PickedConcat(vals, mints, picked, more[..last], n);
      assert (picked + more)[..|picked + more| - 1] == picked + more[..last];
    }
  }

  /** Positions of unused mints of denominations from n on. */
  ghost predicate Picks(vals: seq<nat>, mints: seq<Mint>, picked: seq<nat>, n: nat) {
    forall i :: 0 <= i < |picked| ==>
      picked[i] < |mints| && !mints[picked[i]].isUsed && n <= mints[picked[i]].denom < |vals|
  }

  /** Every wanted denomination has an unused mint: exactly then getSpends returns. */
  predicate Served(mints: seq<Mint>, used: seq<nat>) {
    forall d: nat :: d < |used| ==> used[d] == 0 || Available(mints, d, 0) > 0
  }

  /** getSpends returns if and only if every wanted denomination has an unused mint. */
  lemma SpendsEndIff(mints: seq<Mint>, used: seq<nat>)
    ensures (forall d: nat :: d < |used| ==> Ends(mints, d, used[d])) <==> Served(mints, used)
  {
    forall d: nat | d < |used| ensures Ends(mints, d, used[d]) <==> used[d] == 0 || Available(mints, d, 0) > 0 {
      EndsIff(mints, d, used[d]);
    }
  }

  /** No denomination from n on is wanted more often than there are mints. */
  ghost predicate EnoughFrom(mints: seq<Mint>, used: seq<nat>, n: nat) {
    forall d: nat :: n <= d < |used| ==> used[d] <= Available(mints, d, 0)
  }

  lemma JoinDistinct(vals: seq<nat>, mints: seq<Mint>, picked: seq<nat>, more: seq<nat>, n: nat)
    requires Picks(vals, mints, picked, n + 1)
    requires forall i :: 0 <= i < |more| ==> more[i] < |mints| && Usable(mints[more[i]], n)
    ensures Distinct(picked + more) <==> Distinct(picked) && Distinct(more)
  {
    var all := picked + more;
    if Distinct(all) {
      forall i, l | 0 <= i < l < |picked| ensures picked[i] != picked[l] {
        assert all[i] == picked[i] && all[l] == picked[l];
      }
      forall i, l | 0 <= i < l < |more| ensures more[i] != more[l] {
        assert all[|picked| + i] == more[i] && all[|picked| + l] == more[l];
      }
    }
    if Distinct(picked) && Distinct(more) {
      forall i, l | 0 <= i < l < |all| ensures all[i] != all[l] {
        if i < |picked| <= l {
          assert mints[all[i]].denom > n && mints[all[l]].denom == n;
        } else if i >= |picked| {
          assert all[i] == more[i - |picked|] && all[l] == more[l - |picked|];
        }
      }
    }
  }

  /** getSpends: as many unused mints of every denomination as were to be used and their value.
      When fewer are there than wanted the source walks the list again, so mints come twice: they
      are distinct exactly if there are enough. */
  method GetSpends(vals: seq<nat>, mints: seq<Mint>, used: seq<nat>) returns (picked: seq<nat>, spent: nat)
    requires |used| == |vals| && Served(mints, used)
    ensures Picks(vals, mints, picked, 0) && spent == PickedValue(vals, mints, picked)
    ensures forall d :: 0 <= d < |vals| ==> Selected(mints, picked, d) == used[d]
    ensures spent == Value(vals, used) && |picked| == Count(used, |used|)
    ensures Distinct(picked) <==> Within(used, HeldOf(mints, |vals|))
  {
    picked, spent := [], 0;
    for n := |vals| downto 0
      invariant SpendsAt(vals, mints, used, picked, spent, n)
    {
      var more := PickAll(mints, n, used[n]);
      SpendsNext(vals, mints, used, picked, more, spent, n);
      picked := picked + more;
      spent := spent + Worth(vals[n], |more|);
    }
    EnoughIsWithin(mints, used);
  }

  /** The denominations from n on are served. */
  ghost predicate SpendsAt(vals: seq<nat>, mints: seq<Mint>, used: seq<nat>, picked: seq<nat>, spent: int, n: nat) {
    && |used| == |vals| && n <= |vals| && Picks(vals, mints, picked, n) && spent == PickedValue(vals, mints, picked)
    && (forall d :: 0 <= d < |vals| ==> Selected(mints, picked, d) == if d < n then 0 else used[d])
    && spent + Below(vals, used, n) == Value(vals, used)
    && |picked| + Count(used, n) == Count(used, |used|)
    && (Distinct(picked) <==> EnoughFrom(mints, used, n))
  }

  lemma SpendsNext(vals: seq<nat>, mints: seq<Mint>, used: seq<nat>, picked: seq<nat>, more: seq<nat>, spent: int, n: nat)
    requires SpendsAt(vals, mints, used, picked, spent, n + 1)
    requires (used[n] == 0 || Available(mints, n, 0) > 0) && more == Passes(mints, n, used[n])
    ensures SpendsAt(vals, mints, used, picked + more, spent + Worth(vals[n], |more|), n)
  {
    PassesPick(mints, n, used[n]);
    JoinDistinct(vals, mints, picked, more, n);
    PickedConcat(vals, mints, picked, more, n);
    EnoughNext(mints, used, n);
    forall d | 0 <= d < |vals| ensures Selected(mints, picked + more, d) == if d < n then 0 else used[d] {
      SelectedConcat(mints, picked, more, n, d);
    }
  }

  lemma EnoughNext(mints: seq<Mint>, used: seq<nat>, n: nat)
    requires n < |used|
    ensures EnoughFrom(mints, used, n) <==> used[n] <= Available(mints, n, 0) && EnoughFrom(mints, used, n + 1)
  {
  }

  lemma EnoughIsWithin(mints: seq<Mint>, used: seq<nat>)
    ensures EnoughFrom(mints, used, 0) <==> Within(used, HeldOf(mints, |used|))
  {
    var held := HeldOf(mints, |used|);
    if Within(used, held) {
      forall d: nat | d < |used| ensures used[d] <= Available(mints, d, 0) {
        assert used[d] <= held[d];
      }
    }
  }

  // ----- SelectMintsFromList ------------------------------------------------------------

  lemma SelectionServed(mints: seq<Mint>, used: seq<nat>, held: seq<nat>)
    requires Within(used, held) && Served(mints, held)
    ensures Served(mints, used)
  {
    forall d: nat | d < |used| ensures used[d] == 0 || Available(mints, d, 0) > 0 {
      assert used[d] <= held[d];
    }
  }

  lemma HeldServed(mints: seq<Mint>, n: nat)
    ensures Served(mints, HeldOf(mints, n))
  {
  }

  lemma WithinTrans(a: seq<nat>, b: seq<nat>, c: seq<nat>)
    requires Within(a, b) && Within(b, c)
    ensures Within(a, c)
  {
  }

  /** The mints are one for each coin of the outcome of calculateChange, whose change is n coins. */
  ghost predicate ForChange(vals: seq<nat>, held: seq<nat>, target: int, maxSpends: int, mints: seq<Mint>, picked: seq<nat>, n: nat)
    requires Chain(vals) && |held| == |vals| && Picks(vals, mints, picked, 0)
  {
    exists used :: Outcome(vals, held, target, maxSpends, n, used) && PickedAs(mints, picked, used, |vals|)
  }

  ghost predicate PickedAs(mints: seq<Mint>, picked: seq<nat>, used: seq<nat>, n: nat)
    requires forall i :: 0 <= i < |picked| ==> picked[i] < |mints|
  {
    |used| == n && forall d :: 0 <= d < n ==> Selected(mints, picked, d) == used[d]
  }

  /** A selection with n coins of change: the mints for the outcome of calculateChange, and what they are worth. */
  ghost predicate WithChange(vals: seq<nat>, target: int, maxSpends: nat, mints: seq<Mint>, held: seq<nat>,
                             picked: seq<nat>, spent: nat, n: nat)
    requires Chain(vals) && |held| == |vals|
  {
    && Picks(vals, mints, picked, 0) && ForChange(vals, held, target, maxSpends, mints, picked, n)
    && spent == PickedValue(vals, mints, picked) > target && n == ChangeCount(vals, spent - target)
    && (target > 0 ==> (|picked| <= maxSpends <==> Coverable(vals, held, target, maxSpends)))
  }

  /** What a selection that ends reports: the value and the number of change coins are those of the
      mints returned.  The limit on their number is kept in an exact selection, which has the fewest
      mints; with change it is kept exactly when some selection of the held coins could keep it. */
  ghost predicate Selection(vals: seq<nat>, target: int, maxSpends: nat, mints: seq<Mint>, held: seq<nat>,
                            picked: seq<nat>, spent: nat, coinsReturned: nat, neededSpends: nat)
    requires Chain(vals) && |held| == |vals|
  {
    var available := HeldOf(mints, |vals|);
    var best, exact := Greedy(vals, available, target), Reachable(vals, available, target);
    && Picks(vals, mints, picked, 0) && (Within(held, available) ==> Distinct(picked))
    && (coinsReturned > 0 ==> WithChange(vals, target, maxSpends, mints, held, picked, spent, coinsReturned))
    && (coinsReturned == 0 && picked != [] ==>
          |picked| <= maxSpends && spent == target == PickedValue(vals, mints, picked) && ChangeCount(vals, spent - target) == 0)
    && neededSpends == (if exact && Count(best, |vals|) > maxSpends then Count(best, |vals|) else 0)
    && (exact && neededSpends == 0 ==>
          coinsReturned == 0 && spent == target == PickedValue(vals, mints, picked) && |picked| == Count(best, |vals|))
    && (MustChange(vals, target, mints, held) ==> coinsReturned > 0)
  }

  /** SelectMintsFromList: the fewest mints worth exactly the target if they are few enough,
      otherwise a selection with change.  `ends` is false when the source loops for ever, which
      takes a held count of a denomination without an unused mint. */
  method SelectMintsFromList(vals: seq<nat>, target: int, maxSpends: nat, mints: seq<Mint>, held: seq<nat>)
      returns (ends: bool, picked: seq<nat>, spent: nat, coinsReturned: nat, neededSpends: nat)
    requires Chain(vals) && |held| == |vals|
    ensures Served(mints, held) ==> ends
    ensures ends ==> Selection(vals, target, maxSpends, mints, held, picked, spent, coinsReturned, neededSpends)
  {
    var exact;
    exact, picked, spent := SelectExact(vals, target, mints);
    ends, coinsReturned, neededSpends := true, 0, 0;
    if exact {
      if |picked| <= maxSpends {
        return;
      }
      neededSpends := |picked|;
    }
    ends, picked, spent, coinsReturned := SelectWithChange(vals, target, maxSpends, mints, held, spent);
  }

  /** The first half: the fewest mints worth exactly the target, if there are any. */
  method SelectExact(vals: seq<nat>, target: int, mints: seq<Mint>) returns (exact: bool, picked: seq<nat>, spent: nat)
    requires Chain(vals)
    ensures exact <==> Reachable(vals, HeldOf(mints, |vals|), target)
    ensures exact ==>
      && Picks(vals, mints, picked, 0) && Distinct(picked) && spent == target == PickedValue(vals, mints, picked)
      && |picked| == Count(Greedy(vals, HeldOf(mints, |vals|), target), |vals|) && ChangeCount(vals, spent - target) == 0
  {
    picked, spent := [], 0;
    var used;
    exact, used := GetIdealSpends(vals, target, mints);
    if exact {
      HeldServed(mints, |vals|);
      SelectionServed(mints, used, HeldOf(mints, |vals|));
      picked, spent := GetSpends(vals, mints, used);
      NoChangeCount(vals, 0);
    }
  }

  /** The second half: calculate the change, and pick mints unless there is none. */
  method SelectWithChange(vals: seq<nat>, target: int, maxSpends: nat, mints: seq<Mint>, held: seq<nat>, spent0: nat)
      returns (ends: bool, picked: seq<nat>, spent: nat, coinsReturned: nat)
    requires Chain(vals) && |held| == |vals|
    ensures Served(mints, held) ==> ends
    ensures ends ==> Picks(vals, mints, picked, 0) && (Within(held, HeldOf(mints, |vals|)) ==> Distinct(picked))
    ensures ends && coinsReturned == 0 ==> picked == []
    ensures ends && coinsReturned > 0 ==> WithChange(vals, target, maxSpends, mints, held, picked, spent, coinsReturned)
    ensures MustChange(vals, target, mints, held) ==> coinsReturned > 0
  {
    ends, picked, spent := true, [], spent0;
    var used;
    coinsReturned, used := CalculateChange(maxSpends, target, vals, held);
    if coinsReturned == 0 {
      if MustChange(vals, target, mints, held) {
        ChangeIsDue(vals, target, mints, held, used);
      }
    } else {
      ends, picked, spent := PickForChange(vals, mints, held, used);
      if ends {
        MoreThanTarget(vals, used, target, coinsReturned);
        Shown(vals, held, target, maxSpends, mints, picked, coinsReturned, used);
        Given(vals, target, maxSpends, mints, held, coinsReturned, picked, spent);
      }
    }
  }

  /** The mints for what is spent. */
  method PickForChange(vals: seq<nat>, mints: seq<Mint>, held: seq<nat>, used: seq<nat>)
      returns (ends: bool, picked: seq<nat>, spent: nat)
    requires Chain(vals) && Within(used, held) && |held| == |vals|
    ensures Served(mints, held) ==> ends
    ensures ends ==> Picks(vals, mints, picked, 0) && (Within(held, HeldOf(mints, |vals|)) ==> Distinct(picked))
    ensures ends ==> PickedAs(mints, picked, used, |vals|)
    ensures ends ==> spent == PickedValue(vals, mints, picked) == Value(vals, used) && |picked| == Count(used, |used|)
  {
    picked, spent := [], 0;
    if Served(mints, held) {
      SelectionServed(mints, used, held);
    }
    ends := Served(mints, used);
    if ends {
      picked, spent := GetSpends(vals, mints, used);
      assert PickedAs(mints, picked, used, |vals|);
    }
    if Within(held, HeldOf(mints, |vals|)) {
      WithinTrans(used, held, HeldOf(mints, |vals|));
    }
  }

  lemma Given(vals: seq<nat>, target: int, maxSpends: nat, mints: seq<Mint>, held: seq<nat>, n: nat, picked: seq<nat>, spent: nat)
    requires Chain(vals) && |held| == |vals|
    requires Picks(vals, mints, picked, 0) && ForChange(vals, held, target, maxSpends, mints, picked, n)
    requires target > 0 ==> (|picked| <= maxSpends <==> Coverable(vals, held, target, maxSpends))
    requires spent == PickedValue(vals, mints, picked) > target && n == ChangeCount(vals, spent - target)
    ensures WithChange(vals, target, maxSpends, mints, held, picked, spent, n)
  {
  }

  lemma MoreThanTarget(vals: seq<nat>, used: seq<nat>, target: int, n: nat)
    requires Chain(vals) && ChangeFor(vals, used, target, n) && n > 0
    ensures Value(vals, used) > target
  {
    if Value(vals, used) <= target {
      NoChangeCount(vals, Value(vals, used) - target);
    }
  }

  lemma Shown(vals: seq<nat>, held: seq<nat>, target: int, maxSpends: int, mints: seq<Mint>, picked: seq<nat>, n: nat, used: seq<nat>)
    requires Chain(vals) && |held| == |vals| && Picks(vals, mints, picked, 0)
    requires Outcome(vals, held, target, maxSpends, n, used) && PickedAs(mints, picked, used, |vals|)
    ensures ForChange(vals, held, target, maxSpends, mints, picked, n)
  {
  }

  // ----- when there must be change ---------------------------------------------------------

  /** The held coins cover the target, a multiple of the smallest denomination, but no selection
      of the mints meets it. */
  ghost predicate MustChange(vals: seq<nat>, target: int, mints: seq<Mint>, held: seq<nat>)
    requires |held| == |vals|
  {
    && vals != [] && target >= 0 && Divides(vals[0], target) && Value(vals, held) >= target
    && Within(held, HeldOf(mints, |vals|)) && !Reachable(vals, HeldOf(mints, |vals|), target)
  }

  lemma {:induction false} FirstDivides(vals: seq<nat>, i: nat)
    requires Chain(vals) && i < |vals|
    ensures Divides(vals[0], vals[i])
  {
    if i == 0 {
      assert Worth(vals[0], 1) == Worth(vals[0], 0) + vals[0];
    } else {
      FirstDivides(vals, i - 1);
      assert Link(vals, i - 1);
      var q := Quotient(vals[i - 1], vals[i]);
      DividesTrans(vals[0], vals[i - 1], q);
    }
  }

  /** Every selection is worth a multiple of the smallest denomination. */
  lemma {:induction false} FirstDividesSum(vals: seq<nat>, c: seq<nat>, n: nat)
    requires Chain(vals) && vals != [] && |c| == |vals| && n <= |vals|
    ensures Divides(vals[0], Below(vals, c, n))
  {
    if n == 0 {
      assert Worth(vals[0], 0) == 0;
    } else {
      FirstDividesSum(vals, c, n - 1);
      FirstDivides(vals, n - 1);
      DividesTrans(vals[0], vals[n - 1], c[n - 1]);
      var x := Quotient(vals[0], Below(vals, c, n - 1));
      var y := Quotient(vals[0], Worth(vals[n - 1], c[n - 1]));
      WorthAdd(vals[0], x, y);
    }
  }

  /** Two multiples of a that differ, differ by at least a. */
  lemma MultiplesApart(a: nat, x: nat, y: nat)
    requires Divides(a, x) && Divides(a, y) && x < y
    ensures y - x >= a
  {
    var p := Quotient(a, x);
    var q := Quotient(a, y);
    if q <= p {
      WorthMonotone(a, q, p);
    } else {
      WorthMonotone(a, p, q);
      WorthMonotone(a, 1, q - p);
      assert Worth(a, 1) == Worth(a, 0) + a;
    }
  }

  /** Greedy change for an amount that the smallest denomination fits into is at least one coin. */
  lemma ChangePositive(vals: seq<nat>, a: nat)
    requires Chain(vals) && vals != [] && a >= vals[0]
    ensures ChangeCount(vals, a) > 0
  {
    var held := Plenty(vals, a);
    var c := Change(vals, a);
    GreedyWithin(vals, held, a);
    if Count(c, |vals|) == 0 {
      NoCoins(c, |vals|);
      ZeroBelow(vals, c, |vals|);
      GreedyComplete(vals, held, a);
      assert TookGreedily(vals, held, a, c, 0);
      TakeBounds(Rest(vals, held, a, 1), vals[0], held[0]);
    }
  }

  lemma ChangeIsDue(vals: seq<nat>, target: int, mints: seq<Mint>, held: seq<nat>, used: seq<nat>)
    requires Chain(vals) && |held| == |vals| && MustChange(vals, target, mints, held)
    requires Within(used, held) && Value(vals, used) >= target
    ensures ChangeCount(vals, Value(vals, used) - target) > 0
  {
    WithinTrans(used, held, HeldOf(mints, |vals|));
    FirstDividesSum(vals, used, |vals|);
    MultiplesApart(vals[0], target, Value(vals, used));
    ChangePositive(vals, Value(vals, used) - target);
  }

  // ----- the limit on spends ------------------------------------------------------------------

  const FIVES := [Mint(1, false), Mint(1, false), Mint(1, false)]

  /** Three mints worth 5, a target of 12 and a limit of two: every selection returns three mints,
      because a selection with change is never held against the limit. */
  lemma LimitPassed(picked: seq<nat>, spent: nat, coinsReturned: nat, neededSpends: nat)
    requires Chain([1, 5, 10]) && Selection([1, 5, 10], 12, 2, FIVES, [0, 3, 0], picked, spent, coinsReturned, neededSpends)
    ensures |picked| == 3 > 2
  {
    ThreeFives();
    DistinctBelow(picked, |FIVES|);
  }

  /** The source does return on this input. */
  method ThreeOfTwo() returns (picked: seq<nat>)
    ensures Chain([1, 5, 10]) && exists spent: nat, coinsReturned: nat, neededSpends: nat ::
      Selection([1, 5, 10], 12, 2, FIVES, [0, 3, 0], picked, spent, coinsReturned, neededSpends)
    ensures |picked| == 3
  {
    ThreeFives();
    var ends, spent, coinsReturned, neededSpends;
    ends, picked, spent, coinsReturned, neededSpends := SelectMintsFromList([1, 5, 10], 12, 2, FIVES, [0, 3, 0]);
    LimitPassed(picked, spent, coinsReturned, neededSpends);
  }

  lemma {:induction false} DistinctBelow(p: seq<nat>, n: nat)
    requires Distinct(p) && forall i :: 0 <= i < |p| ==> p[i] < n
    ensures |p| <= n
    decreases n
  {
    if p != [] {
      assert p[0] < n;
      if k: nat :| k < |p| && p[k] == n - 1 {
        DistinctBelow(p[..k] + p[k + 1..], n - 1);
      } else {
        DistinctBelow(p, n - 1);
      }
    }
  }

  /** The coins of the example: not 12, and with two of them not even 12 or more. */
  lemma ThreeFives()
    ensures var vals, held := [1, 5, 10], [0, 3, 0];
      var mints := [Mint(1, false), Mint(1, false), Mint(1, false)];
      && Chain(vals) && HeldOf(mints, 3) == held && Served(mints, held)
      && MustChange(vals, 12, mints, held) && !Coverable(vals, held, 12, 2)
  {
    var vals: seq<nat>, held: seq<nat> := [1, 5, 10], [0, 3, 0];
    var mints := [Mint(1, false), Mint(1, false), Mint(1, false)];
    WorthIsProduct(1, 5);
    WorthIsProduct(5, 2);
    WorthIsProduct(1, 12);
    assert Divides(1, 5) && Divides(5, 10) && Divides(1, 12);
    assert Link(vals, 0) && Link(vals, 1);
    assert Available(mints, 1, 2) == 1 && Available(mints, 1, 1) == 2;
    assert Available(mints, 0, 2) == 0 && Available(mints, 2, 2) == 0;
    assert Available(mints, 0, 1) == 0 && Available(mints, 2, 1) == 0;
    assert HeldOf(mints, 3) == held;
    forall c | Within(c, held) ensures Value(vals, c) == 5 * c[1] && Count(c, 3) == c[1] {
      FiveEach(c);
    }
    FiveEach(held);
  }

  lemma FiveEach(c: seq<nat>)
    requires Within(c, [0, 3, 0])
    ensures Value([1, 5, 10], c) == 5 * c[1] && Count(c, 3) == c[1]
  {
    var vals: seq<nat> := [1, 5, 10];
    WorthIsProduct(5, c[1]);
    assert Below(vals, c, 1) == 0;
    assert Below(vals, c, 2) == Worth(5, c[1]);
    assert Count(c, 1) == 0;
    assert Count(c, 2) == c[1];
  }
}
