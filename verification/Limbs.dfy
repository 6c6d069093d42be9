/** Numbers as 32-bit limbs, least significant first, and what the limb loops of the source
    compute.  Products with powers of two are written with Lift, so that the proofs stay linear. */
module Limbs {
  ghost predicate AreLimbs(s: seq<nat>) { forall i :: 0 <= i < |s| ==> s[i] < 0x1_0000_0000 }

  /** The number that limbs stand for. */
  function Value(s: seq<nat>): nat {
    if s == [] then 0 else s[0] + 0x1_0000_0000 * Value(s[1..])
  }

  /** x times 2^(32 n). */
  function Lift(x: int, n: nat): int
    decreases n, x
  {
    if n == 0 then x else 0x1_0000_0000 * Lift(x, n - 1)
  }

  /** 2^(32 n), the modulus of n limbs. */
  function Modulus(n: nat): (m: nat)
    ensures m > 0
    decreases n, 0
  {
    if n == 0 then 1 else 0x1_0000_0000 * Modulus(n - 1)
  }

  // ----- powers --------------------------------------------------------------------------------------

  lemma {:induction false} LiftSum(x: int, y: int, n: nat)
    ensures Lift(x + y, n) == Lift(x, n) + Lift(y, n)
    ensures Lift(x - y, n) == Lift(x, n) - Lift(y, n)
    decreases n
  {
    if n > 0 {
      LiftSum(x, y, n - 1);
    }
  }

  lemma {:induction false} LiftTwice(x: int, j: nat, k: nat)
    ensures Lift(Lift(x, j), k) == Lift(x, j + k)
    decreases k
  {
    if k > 0 {
      LiftTwice(x, j, k - 1);
    }
  }

  lemma {:induction false} LiftTimes(x: int, y: int, n: nat)
    ensures Lift(x, n) * y == Lift(x * y, n)
    decreases n
  {
    if n > 0 {
      LiftTimes(x, y, n - 1);
      TimesB(Lift(x, n - 1), y);
    }
  }

  lemma TimesB(l: int, y: int)
    ensures (0x1_0000_0000 * l) * y == 0x1_0000_0000 * (l * y)
  {
  }

  lemma {:induction false} LiftIs(x: int, n: nat)
    ensures Lift(x, n) == x * Modulus(n)
    decreases n
  {
    if n > 0 {
      LiftIs(x, n - 1);
      assert x * (0x1_0000_0000 * Modulus(n - 1)) == 0x1_0000_0000 * (x * Modulus(n - 1));
    }
  }

  /** v is x modulo 2^(32 n). */
  ghost predicate Wraps(x: int, v: nat, n: nat) {
    v < Modulus(n) && exists k :: x == v + Lift(k, n)
  }

  /** Wraps is reduction by the modulus. */
  lemma WrapsIsMod(x: int, v: nat, n: nat)
    ensures Wraps(x, v, n) <==> v == x % Modulus(n)
  {
    var m := Modulus(n);
    if Wraps(x, v, n) {
      var k :| x == v + Lift(k, n);
      LiftIs(k, n);
      ModUnique(x, v, k, m);
    }
    if v == x % m {
      LiftIs(x / m, n);
      assert x == m * (x / m) + x % m;
      assert x == v + Lift(x / m, n);
    }
  }

  lemma ModUnique(x: int, v: nat, k: int, m: nat)
    requires v < m && x == v + k * m
    ensures x % m == v
  {
    var q, r := x / m, x % m;
    assert x == m * q + r;
    assert (q - k) * m == v - r by {
      assert (q - k) * m == q * m - k * m;
      assert m * q == q * m;
    }
    SmallMultiple(q - k, m, v - r);
  }

  lemma SmallMultiple(d: int, m: nat, e: int)
    requires d * m == e && e < m && 0 < m + e
    ensures e == 0
  {
    if d >= 1 {
      AtLeast(d, m);
    } else if d <= -1 {
      AtMost(d, m);
    }
  }

  lemma AtLeast(d: int, m: nat)
    requires d >= 1
    ensures d * m >= m
  {
  }

  lemma AtMost(d: int, m: nat)
    requires d <= -1
    ensures d * m + m <= 0
  {
  }

  lemma {:induction false} ValueBound(s: seq<nat>)
    requires AreLimbs(s)
    ensures Value(s) < Modulus(|s|)
  {
    if s != [] {
      ValueBound(s[1..]);
    }
  }

  lemma {:induction false} ValueConcat(s: seq<nat>, t: seq<nat>)
    ensures Value(s + t) == Value(s) + Lift(Value(t), |s|)
  {
    if s == [] {
      assert s + t == t;
    } else {
      ValueConcat(s[1..], t);
      assert (s + t)[1..] == s[1..] + t;
    }
  }

  lemma ValueSplit(s: seq<nat>, k: nat)
    requires k <= |s|
    ensures Value(s) == Value(s[..k]) + Lift(Value(s[k..]), k)
  {
    assert s[..k] + s[k..] == s;
    ValueConcat(s[..k], s[k..]);
  }

  lemma {:induction false} ValueZeros(s: seq<nat>)
    requires forall i :: 0 <= i < |s| ==> s[i] == 0
    ensures Value(s) == 0
  {
    if s != [] {
      ValueZeros(s[1..]);
    }
  }

  /** Limbs are determined by the number they stand for. */
  lemma {:induction false} ValueInjective(s: seq<nat>, t: seq<nat>)
    requires AreLimbs(s) && AreLimbs(t) && |s| == |t| && Value(s) == Value(t)
    ensures s == t
  {
    if s != [] {
      assert s[0] == t[0] && Value(s[1..]) == Value(t[1..]);
      ValueInjective(s[1..], t[1..]);
      assert s == [s[0]] + s[1..] && t == [t[0]] + t[1..];
    }
  }

  // ----- addition and negation ------------------------------------------------------------------------

  /** The carry loop of +=. */
  function Sum(a: seq<nat>, b: seq<nat>, carry: nat): (r: (seq<nat>, nat))
    requires |a| == |b|
    ensures |r.0| == |a|
  {
    if a == [] then ([], carry)
    else
      var n := carry + a[0] + b[0];
      var rest := Sum(a[1..], b[1..], n / 0x1_0000_0000);
      ([n % 0x1_0000_0000] + rest.0, rest.1)
  }

  lemma {:induction false} SumExact(a: seq<nat>, b: seq<nat>, carry: nat)
    requires |a| == |b|
    ensures AreLimbs(Sum(a, b, carry).0)
    ensures Value(a) + Value(b) + carry == Value(Sum(a, b, carry).0) + Lift(Sum(a, b, carry).1, |a|)
  {
    if a != [] {
      var n := carry + a[0] + b[0];
      SumExact(a[1..], b[1..], n / 0x1_0000_0000);
      var rest := Sum(a[1..], b[1..], n / 0x1_0000_0000);
      assert ([n % 0x1_0000_0000] + rest.0)[1..] == rest.0;
    }
  }

  /** Addition modulo 2^(32 n). */
  lemma SumWraps(a: seq<nat>, b: seq<nat>)
    requires |a| == |b|
    ensures AreLimbs(Sum(a, b, 0).0) && Wraps(Value(a) + Value(b), Value(Sum(a, b, 0).0), |a|)
  {
    SumExact(a, b, 0);
    ValueBound(Sum(a, b, 0).0);
  }

  function Inverted(a: seq<nat>): (r: seq<nat>)
    requires AreLimbs(a)
    ensures |r| == |a| && AreLimbs(r)
    ensures forall i :: 0 <= i < |r| ==> r[i] == 0xffff_ffff - a[i]
  {
    seq(|a|, i requires 0 <= i < |a| => 0xffff_ffff - a[i])
  }

  lemma {:induction false} InvertedIs(a: seq<nat>)
    requires AreLimbs(a)
    ensures Value(Inverted(a)) == Modulus(|a|) - 1 - Value(a)
  {
    if a != [] {
      InvertedIs(a[1..]);
      assert Inverted(a)[1..] == Inverted(a[1..]);
    }
  }

  /** The prefix ++: limbs wrap to zero as long as they are full. */
  function Next(a: seq<nat>): (r: seq<nat>)
    ensures |r| == |a|
  {
    if a == [] then []
    else if a[0] == 0xffff_ffff then [0] + Next(a[1..])
    else [a[0] + 1] + a[1..]
  }

  lemma {:induction false} NextIs(a: seq<nat>)
    requires AreLimbs(a)
    ensures AreLimbs(Next(a))
    ensures Value(Next(a)) == if Value(a) == Modulus(|a|) - 1 then 0 else Value(a) + 1
  {
    if a != [] {
      ValueBound(a[1..]);
      if a[0] == 0xffff_ffff {
        NextIs(a[1..]);
        assert ([0] + Next(a[1..]))[1..] == Next(a[1..]);
      } else {
        assert ([a[0] + 1] + a[1..])[1..] == a[1..];
      }
    }
  }

  /** The prefix --: limbs wrap to full as long as they are zero. */
  function Previous(a: seq<nat>): (r: seq<nat>)
    ensures |r| == |a|
  {
    if a == [] then []
    else if a[0] == 0 then [0xffff_ffff] + Previous(a[1..])
    else [a[0] - 1] + a[1..]
  }

  /** -- undoes ++ and the other way round. */
  lemma {:induction false} PreviousNext(a: seq<nat>)
    requires AreLimbs(a)
    ensures Previous(Next(a)) == a && Next(Previous(a)) == a && AreLimbs(Previous(a))
  {
    if a != [] {
      PreviousNext(a[1..]);
      assert [a[0]] + a[1..] == a;
      var n, p := Next(a), Previous(a);
      assert n[1..] == (if a[0] == 0xffff_ffff then Next(a[1..]) else a[1..]);
      assert p[1..] == (if a[0] == 0 then Previous(a[1..]) else a[1..]);
    }
  }

  function Negated(a: seq<nat>): (r: seq<nat>)
    requires AreLimbs(a)
    ensures |r| == |a|
  {
    Next(Inverted(a))
  }

  lemma NegatedIs(a: seq<nat>)
    requires AreLimbs(a)
    ensures AreLimbs(Negated(a)) && Value(Negated(a)) == if Value(a) == 0 then 0 else Modulus(|a|) - Value(a)
  {
    InvertedIs(a);
    NextIs(Inverted(a));
    ValueBound(a);
  }

  /** Subtraction modulo 2^(32 n), as addition of the negation. */
  lemma DifferenceWraps(a: seq<nat>, b: seq<nat>)
    requires |a| == |b| && AreLimbs(b)
    ensures AreLimbs(Sum(a, Negated(b), 0).0)
    ensures Wraps(Value(a) - Value(b), Value(Sum(a, Negated(b), 0).0), |a|)
  {
    NegatedIs(b);
    var r := Sum(a, Negated(b), 0);
    SumExact(a, Negated(b), 0);
    ValueBound(r.0);
    OneLess(r.1, |a|);
  }

  lemma OneLess(x: int, n: nat)
    ensures Lift(x - 1, n) == Lift(x, n) - Modulus(n)
  {
    LiftSum(x, 1, n);
    LiftIs(1, n);
  }
}
