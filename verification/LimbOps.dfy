/** Products, shifts, comparison and bit length on limbs, against the numbers they stand for. */
module LimbOps {
  import opened Bits
  import opened Limbs

  // ----- products -------------------------------------------------------------------------------------

  /** One row of the schoolbook product: p += d * b, truncated to the limbs of p. */
  function Row(p: seq<nat>, b: seq<nat>, d: nat, carry: nat): (r: (seq<nat>, nat))
    requires |p| <= |b|
    ensures |r.0| == |p| && AreLimbs(r.0)
    decreases |p|
  {
    if p == [] then ([], carry)
    else
      var n := carry + p[0] + d * b[0];
      var rest := Row(p[1..], b[1..], d, n / 0x1_0000_0000);
      ([n % 0x1_0000_0000] + rest.0, rest.1)
  }

  lemma TimesLimb(d: nat, b: nat, rest: nat)
    ensures d * (b + 0x1_0000_0000 * rest) == d * b + 0x1_0000_0000 * (d * rest)
  {
  }

  lemma {:induction false} RowExact(p: seq<nat>, b: seq<nat>, d: nat, carry: nat)
    requires |p| <= |b|
    ensures Value(p) + d * Value(b[..|p|]) + carry == Value(Row(p, b, d, carry).0) + Lift(Row(p, b, d, carry).1, |p|)
    decreases |p|
  {
    if p != [] {
      var n := carry + p[0] + d * b[0];
      RowExact(p[1..], b[1..], d, n / 0x1_0000_0000);
      var rest := Row(p[1..], b[1..], d, n / 0x1_0000_0000);
      assert ([n % 0x1_0000_0000] + rest.0)[1..] == rest.0;
      assert b[..|p|][1..] == b[1..][..|p| - 1];
      TimesLimb(d, b[0], Value(b[1..][..|p| - 1]));
    }
  }

  /** The 64-bit accumulator of the inner loop never overflows. */
  lemma AccumulatorFits(carry: nat, p: nat, d: nat, b: nat)
    requires carry < 0x1_0000_0000 && p < 0x1_0000_0000 && d < 0x1_0000_0000 && b < 0x1_0000_0000
    ensures carry + p + d * b < 0x1_0000_0000_0000_0000
    ensures (carry + p + d * b) / 0x1_0000_0000 < 0x1_0000_0000
  {
    ProductBelow(d, b, 0xffff_ffff);
  }

  lemma ProductBelow(d: nat, b: nat, m: nat)
    requires d <= m && b <= m
    ensures d * b <= m * m
  {
    assert d * b <= m * b;
    assert m * b <= m * m;
  }

  /** The product, kept away from the nonlinear arithmetic of the solver. */
  ghost function Times(x: nat, y: nat): nat
    decreases x
  {
    if x == 0 then 0 else y + Times(x - 1, y)
  }

  lemma {:induction false} TimesIs(x: nat, y: nat)
    ensures Times(x, y) == x * y
    decreases x
  {
    if x > 0 {
      TimesIs(x - 1, y);
      assert x * y == y + (x - 1) * y;
    }
  }

  /** low + p stands for x * y modulo 2^(32 n), and one more limb d of x is taken in. */
  lemma RowWraps(x: nat, x': nat, d: nat, low: seq<nat>, p: seq<nat>, b: seq<nat>)
    requires AreLimbs(low) && |b| == |low| + |p|
    requires x' == x + Lift(d, |low|) && Wraps(Times(x, Value(b)), Value(low + p), |b|)
    ensures Wraps(Times(x', Value(b)), Value(low + Row(p, b, d, 0).0), |b|)
  {
    RowValues(d, low, p, b);
    var e := RowProduct(x, x', d, |low|, p, b);
    WrapsMoves(Times(x, Value(b)), Times(x', Value(b)), Value(low + p), Value(low + Row(p, b, d, 0).0),
               Lift(Value(Row(p, b, d, 0).0), |low|), Lift(Value(p), |low|), e, |b|);
  }

  lemma RowValues(d: nat, low: seq<nat>, p: seq<nat>, b: seq<nat>)
    requires AreLimbs(low) && |b| == |low| + |p|
    ensures var r := Row(p, b, d, 0).0;
      Value(low + r) == Value(low + p) + Lift(Value(r), |low|) - Lift(Value(p), |low|) < Modulus(|b|)
  {
    SameLow(low, p, Row(p, b, d, 0).0);
  }

  lemma SameLow(low: seq<nat>, p: seq<nat>, r: seq<nat>)
    requires AreLimbs(low) && AreLimbs(r)
    ensures Value(low + r) == Value(low + p) + Lift(Value(r), |low|) - Lift(Value(p), |low|)
    ensures Value(low + r) < Modulus(|low| + |r|)
  {
    JoinBound(low, r);
    ValueConcat(low, p);
    ValueConcat(low, r);
  }

  lemma JoinBound(low: seq<nat>, r: seq<nat>)
    requires AreLimbs(low) && AreLimbs(r)
    ensures Value(low + r) < Modulus(|low| + |r|)
  {
    ValueBound(low + r);
  }

  lemma RowProduct(x: nat, x': nat, d: nat, j: nat, p: seq<nat>, b: seq<nat>) returns (e: int)
    requires |b| == j + |p| && x' == x + Lift(d, j)
    ensures Times(x', Value(b))
         == Times(x, Value(b)) + Lift(Value(Row(p, b, d, 0).0), j) - Lift(Value(p), j) + Lift(e, |b|)
  {
    var m := |p|;
    var r := Row(p, b, d, 0);
    RowExact(p, b, d, 0);
    ValueSplit(b, m);
    e := r.1 + d * Value(b[m..]);
    TimesIs(x, Value(b));
    TimesIs(x', Value(b));
    RowNumbers(x, d, Value(b), Value(b[..m]), Value(b[m..]), j, m, Value(p), Value(r.0), r.1);
  }

  lemma WrapsMoves(x: int, x': int, v: nat, v': nat, plus: int, minus: int, e: int, n: nat)
    requires Wraps(x, v, n) && v' == v + plus - minus < Modulus(n)
    requires x' == x + plus - minus + Lift(e, n)
    ensures Wraps(x', v', n)
  {
    var k :| x == v + Lift(k, n);
    LiftSum(k, e, n);
    assert x' == v' + Lift(k + e, n);
  }

  lemma RowNumbers(x: nat, d: nat, y: nat, y1: nat, y2: nat, j: nat, m: nat, p: nat, r: nat, c: nat)
    requires y == y1 + Lift(y2, m) && p + d * y1 == r + Lift(c, m)
    ensures (x + Lift(d, j)) * y == x * y + Lift(r, j) - Lift(p, j) + Lift(c + d * y2, j + m)
  {
    assert (x + Lift(d, j)) * y == x * y + Lift(d, j) * y;
    LiftTimes(d, y, j);
    LiftTimes(y2, d, m);
    TimesSplit(d, y1, Lift(y2, m));
    assert d * y == d * y1 + Lift(d * y2, m);
    assert d * y + p == r + Lift(c, m) + Lift(d * y2, m);
    LiftSum(c, d * y2, m);
    var e := c + d * y2;
    assert d * y == r - p + Lift(e, m);
    LiftSum(r - p, Lift(e, m), j);
    LiftSum(r, p, j);
    LiftTwice(e, m, j);
  }

  lemma TimesSplit(d: int, u: int, v: int)
    ensures d * (u + v) == d * u + v * d
  {
  }

  // ----- comparison and bit length -------------------------------------------------------------------------

  lemma {:induction false} LiftMonotone(x: int, y: int, n: nat)
    requires x <= y
    ensures Lift(x, n) <= Lift(y, n)
    decreases n
  {
    if n > 0 {
      LiftMonotone(x, y, n - 1);
    }
  }

  /** The first difference from the top decides. */
  lemma FirstDifference(a: seq<nat>, b: seq<nat>, i: nat)
    requires AreLimbs(a) && |a| == |b| && i < |a| && a[i + 1..] == b[i + 1..] && a[i] < b[i]
    ensures Value(a) < Value(b)
  {
    ValueSplit(a, i);
    ValueSplit(b, i);
    ValueBound(a[..i]);
    assert a[i..][1..] == a[i + 1..] && b[i..][1..] == b[i + 1..];
    LiftMonotone(Value(a[i..]) + 1, Value(b[i..]), i);
    LiftSum(Value(a[i..]), 1, i);
    LiftIs(1, i);
  }

  lemma Shl32(y: nat)
    ensures Shl(y, 32) == 0x1_0000_0000 * y
  {
    assert Shl(y, 1) == 2 * y && Shl(y, 2) == 2 * Shl(y, 1);
    assert Shl(y, 4) == 16 * y;
    ShlTwice(y, 4, 4);
    assert Shl(16 * y, 1) == 32 * y && Shl(16 * y, 2) == 2 * Shl(16 * y, 1);
    assert Shl(16 * y, 4) == 256 * y;
    ShlEight(256 * y);
    ShlTwice(y, 8, 8);
    ShlEight(0x1_0000 * y);
    ShlTwice(y, 16, 8);
    ShlEight(0x100_0000 * y);
    ShlTwice(y, 24, 8);
  }

  lemma ShlEight(y: nat)
    ensures Shl(y, 8) == 256 * y
  {
    assert Shl(y, 1) == 2 * y && Shl(y, 2) == 2 * Shl(y, 1);
    assert Shl(y, 4) == 16 * y;
    assert Shl(y, 6) == 64 * y;
  }

  lemma {:induction false} LiftIsShl(x: nat, k: nat)
    ensures Lift(x, k) == Shl(x, 32 * k)
    decreases k
  {
    if k > 0 {
      LiftIsShl(x, k - 1);
      ShlTwice(x, 32 * (k - 1), 32);
      Shl32(Shl(x, 32 * (k - 1)));
    }
  }

  lemma {:induction false} BitTop(x: nat, k: nat)
    requires x < Shl(1, k + 1)
    ensures Bit(x, k) <==> Shl(1, k) <= x
    decreases k
  {
    if k > 0 {
      BitTop(x / 2, k - 1);
    } else {
      assert Shl(1, 1) == 2;
    }
  }

  /** The bit length from the highest limb that is not zero. */
  lemma TopLimb(s: seq<nat>, pos: nat, bits: nat)
    requires AreLimbs(s) && pos < |s| && forall i :: pos < i < |s| ==> s[i] == 0
    requires Shl(1, bits) <= s[pos] < Shl(1, bits + 1)
    ensures Shl(1, 32 * pos + bits) <= Value(s) < Shl(1, 32 * pos + bits + 1)
  {
    ValueSplit(s, pos);
    ValueBound(s[..pos]);
    ValueZeros(s[pos + 1..]);
    assert s[pos..][1..] == s[pos + 1..];
    assert Value(s[pos..]) == s[pos];
    LiftMonotone(Shl(1, bits), s[pos], pos);
    LiftMonotone(s[pos] + 1, Shl(1, bits + 1), pos);
    LiftSum(s[pos], 1, pos);
    LiftIs(1, pos);
    LiftIsShl(Shl(1, bits), pos);
    LiftIsShl(Shl(1, bits + 1), pos);
    ShlTwice(1, bits, 32 * pos);
    ShlTwice(1, bits + 1, 32 * pos);
  }

  // ----- shifts ----------------------------------------------------------------------------------------------

  /** How a limb shifted by s bits is cut in two. */
  lemma LimbShift(x: nat, s: nat) returns (y: nat)
    requires x < 0x1_0000_0000 && s < 32
    ensures Shl(x, s) == 0x1_0000_0000 * Shr(x, 32 - s) + Shl(y, s)
    ensures Shl(y, s) + Shl(1, s) <= 0x1_0000_0000 && Shr(x, 32 - s) < Shl(1, s)
  {
    var h := Shr(x, 32 - s);
    ShrSplits(x, 32 - s);
    y := x - Shl(h, 32 - s);
    ShlSum(Shl(h, 32 - s), y, s);
    ShlTwice(h, 32 - s, s);
    Shl32(h);
    ShlMonotone(y + 1, Shl(1, 32 - s), s);
    ShlSum(y, 1, s);
    ShlTwice(1, 32 - s, s);
    Shl32(1);
    if h >= Shl(1, s) {
      ShlMonotone(Shl(1, s), h, 32 - s);
      ShlTwice(1, s, 32 - s);
    }
  }

  lemma LimbShiftParts(x: nat, s: nat)
    requires x < 0x1_0000_0000 && s < 32
    ensures Shl(x, s) / 0x1_0000_0000 == Shr(x, 32 - s) < Shl(1, s)
    ensures Shl(x, s) % 0x1_0000_0000 + Shl(1, s) <= 0x1_0000_0000
  {
    var y := LimbShift(x, s);
    ShlMonotone(0, 1, s);
    ShlPositive(s);
  }

  lemma {:induction false} ShlPositive(s: nat)
    ensures Shl(1, s) > 0
  {
    if s > 0 {
      ShlPositive(s - 1);
    }
  }

  /** Every limb moves up s bits, s < 32. */
  function ShiftUp(a: seq<nat>, s: nat, carry: nat): (r: (seq<nat>, nat))
    requires s < 32
    ensures |r.0| == |a|
    decreases |a|
  {
    if a == [] then ([], carry)
    else
      var rest := ShiftUp(a[1..], s, Shr(a[0], 32 - s));
      ([Shl(a[0], s) % 0x1_0000_0000 + carry] + rest.0, rest.1)
  }

  lemma {:induction false} ShiftUpExact(a: seq<nat>, s: nat, carry: nat)
    requires s < 32 && AreLimbs(a) && carry < Shl(1, s)
    ensures AreLimbs(ShiftUp(a, s, carry).0)
    ensures Shl(Value(a), s) + carry == Value(ShiftUp(a, s, carry).0) + Lift(ShiftUp(a, s, carry).1, |a|)
    decreases |a|
  {
    if a == [] {
      ZeroShifts(s);
    } else {
      LimbShiftParts(a[0], s);
      var high := Shr(a[0], 32 - s);
      ShiftUpExact(a[1..], s, high);
      var rest := ShiftUp(a[1..], s, high);
      assert ([Shl(a[0], s) % 0x1_0000_0000 + carry] + rest.0)[1..] == rest.0;
      ShlSum(a[0], 0x1_0000_0000 * Value(a[1..]), s);
      ShlTimesB(Value(a[1..]), s);
    }
  }

  lemma {:induction false} ShlTimesB(x: nat, s: nat)
    ensures Shl(0x1_0000_0000 * x, s) == 0x1_0000_0000 * Shl(x, s)
    decreases s
  {
    if s > 0 {
      ShlTimesB(x, s - 1);
    }
  }

  /** a << shift, truncated. */
  function ShiftedLeft(a: seq<nat>, shift: nat): (r: seq<nat>)
    ensures |r| == |a|
  {
    var k := shift / 32;
    if k >= |a| then Zeros(|a|) else Zeros(k) + ShiftUp(a, shift % 32, 0).0[..|a| - k]
  }

  /** The left shift multiplies by a power of two modulo 2^(32 n). */
  lemma ShiftLeftWraps(a: seq<nat>, shift: nat)
    requires AreLimbs(a)
    ensures AreLimbs(ShiftedLeft(a, shift))
    ensures Wraps(Shl(Value(a), shift), Value(ShiftedLeft(a, shift)), |a|)
  {
    var k, s := shift / 32, shift % 32;
    var x := Shl(Value(a), s);
    ShlPositive(s);
    ShiftUpExact(a, s, 0);
    ShlLifts(Value(a), shift);
    if k >= |a| {
      AllShiftedOut(x, |a|, k);
    } else {
      var t := ShiftUp(a, s, 0);
      var n := |a| - k;
      assert t.0 == t.0[..n] + t.0[n..];
      MovedUp(x, t.0, t.0[..n], t.0[n..], t.1, k);
    }
  }

  lemma ShlLifts(v: nat, shift: nat)
    ensures Shl(v, shift) == Lift(Shl(v, shift % 32), shift / 32)
  {
    ShlTwice(v, shift % 32, 32 * (shift / 32));
    LiftIsShl(Shl(v, shift % 32), shift / 32);
  }

  lemma AllShiftedOut(x: nat, n: nat, k: nat)
    requires k >= n
    ensures Wraps(Lift(x, k), Value(Zeros(n)), n)
  {
    ValueZeros(Zeros(n));
    LiftTwice(x, k - n, n);
    assert Lift(x, k) == 0 + Lift(Lift(x, k - n), n);
  }

  lemma MovedUp(x: nat, t: seq<nat>, t1: seq<nat>, t2: seq<nat>, out: nat, k: nat)
    requires AreLimbs(t1) && t == t1 + t2 && |t2| == k && x == Value(t) + Lift(out, |t|)
    ensures Wraps(Lift(x, k), Value(Zeros(k) + t1), |t|)
  {
    ValueConcat(t1, t2);
    ZerosBelow(t1, k);
    MovedNumbers(x, Value(t), Value(t1), Value(t2), out, |t|, k, Value(Zeros(k) + t1));
  }

  lemma MovedNumbers(x: nat, v: nat, t1: nat, t2: nat, out: nat, n: nat, k: nat, w: nat)
    requires k <= n && v == t1 + Lift(t2, n - k) && x == v + Lift(out, n)
    requires w == Lift(t1, k) < Modulus(n)
    ensures Wraps(Lift(x, k), w, n)
  {
    LiftNumbers(x, t1, t2, out, n, k);
    WrapsBy(Lift(x, k), w, t2 + Lift(out, k), n);
  }

  lemma ZerosBelow(t: seq<nat>, k: nat)
    requires AreLimbs(t)
    ensures Value(Zeros(k) + t) == Lift(Value(t), k) < Modulus(k + |t|)
  {
    ValueZeros(Zeros(k));
    ValueConcat(Zeros(k), t);
    ValueBound(Zeros(k) + t);
  }

  lemma WrapsBy(x: int, v: nat, k: int, n: nat)
    requires v < Modulus(n) && x == v + Lift(k, n)
    ensures Wraps(x, v, n)
  {
  }

  lemma LiftNumbers(x: nat, t1: nat, t2: nat, out: nat, n: nat, k: nat)
    requires k <= n && x == t1 + Lift(t2, n - k) + Lift(out, n)
    ensures Lift(x, k) == Lift(t1, k) + Lift(t2 + Lift(out, k), n)
  {
    LiftSum(t1 + Lift(t2, n - k), Lift(out, n), k);
    LiftSum(t1, Lift(t2, n - k), k);
    LiftTwice(t2, n - k, k);
    LiftTwice(out, n, k);
    LiftTwice(out, k, n);
    LiftSum(t2, Lift(out, k), n);
  }

  /** Every limb moves down s bits, s < 32. */
  function ShiftDown(a: seq<nat>, s: nat): (r: seq<nat>)
    requires s < 32
    ensures |r| == |a|
    decreases |a|
  {
    if a == [] then []
    else [Shr(a[0], s) + (if |a| > 1 then Shl(a[1], 32 - s) % 0x1_0000_0000 else 0)] + ShiftDown(a[1..], s)
  }

  /** What a right shift brings down from the limbs above. */
  lemma ShrLimb(a: nat, above: nat, s: nat)
    requires a < 0x1_0000_0000 && s < 32
    ensures Shr(a + 0x1_0000_0000 * above, s) == Shr(a, s) + Shl(above, 32 - s)
  {
    var h := Shr(a, s);
    ShrSplits(a, s);
    Shl32(above);
    ShlTwice(above, 32 - s, s);
    ShlSum(h, Shl(above, 32 - s), s);
    ShrShl(h + Shl(above, 32 - s), a - Shl(h, s), s);
  }

  /** What goes into the limb below and what stays. */
  lemma ShlLimb(a: nat, above: nat, s: nat)
    requires a < 0x1_0000_0000 && s < 32
    ensures Shl(a + 0x1_0000_0000 * above, 32 - s)
         == 0x1_0000_0000 * Shr(a + 0x1_0000_0000 * above, s) + Shl(a, 32 - s) % 0x1_0000_0000
    ensures Shl(a, 32 - s) % 0x1_0000_0000 + Shl(1, 32 - s) <= 0x1_0000_0000
  {
    Shl32(1);
    if s == 0 {
      Shl32(a + 0x1_0000_0000 * above);
      Shl32(a);
    } else {
      LimbShiftParts(a, 32 - s);
      ShlSum(a, 0x1_0000_0000 * above, 32 - s);
      ShlTimesB(above, 32 - s);
      ShrLimb(a, above, s);
    }
  }

  lemma ShrBelow(a: nat, s: nat)
    requires a < 0x1_0000_0000 && s < 32
    ensures Shr(a, s) < Shl(1, 32 - s)
  {
    ShrSplits(a, s);
    if Shl(1, 32 - s) <= Shr(a, s) {
      ShlMonotone(Shl(1, 32 - s), Shr(a, s), s);
      ShlTwice(1, 32 - s, s);
      Shl32(1);
    }
  }

  /** The lowest limb of a right shift. */
  lemma FirstDown(a: seq<nat>, s: nat)
    requires s < 32 && AreLimbs(a) && a != []
    ensures ShiftDown(a, s)[0] < 0x1_0000_0000
    ensures Shr(Value(a), s) == ShiftDown(a, s)[0] + 0x1_0000_0000 * Shr(Value(a[1..]), s)
  {
    ShrLimb(a[0], Value(a[1..]), s);
    ShrBelow(a[0], s);
    if |a| > 1 {
      ShlLimb(a[1], Value(a[1..][1..]), s);
    } else {
      ZeroShifts(s);
      ZeroShifts(32 - s);
      LimbBelow(s);
    }
  }

  lemma ZeroShifts(k: nat)
    ensures Shl(0, k) == 0 && Shr(0, k) == 0
  {
    ShlSum(0, 0, k);
    ShlPositive(k);
    ShrShl(0, 0, k);
  }

  lemma {:induction false} ShiftDownExact(a: seq<nat>, s: nat)
    requires s < 32 && AreLimbs(a)
    ensures AreLimbs(ShiftDown(a, s)) && Value(ShiftDown(a, s)) == Shr(Value(a), s)
    decreases |a|
  {
    if a == [] {
      ZeroShifts(s);
    } else {
      ShiftDownExact(a[1..], s);
      FirstDown(a, s);
      assert ShiftDown(a, s)[1..] == ShiftDown(a[1..], s);
    }
  }

  lemma LimbBelow(s: nat)
    requires s < 32
    ensures Shl(1, 32 - s) <= 0x1_0000_0000
  {
    ShlLonger(32 - s, 32);
    Shl32(1);
  }

  lemma {:induction false} ShlLonger(j: nat, k: nat)
    requires j <= k
    ensures Shl(1, j) <= Shl(1, k)
    decreases k
  {
    if j < k {
      ShlLonger(j, k - 1);
    }
  }

  lemma {:induction false} ShiftDownDrop(a: seq<nat>, s: nat, k: nat)
    requires s < 32 && k <= |a|
    ensures ShiftDown(a, s)[k..] == ShiftDown(a[k..], s)
  {
    if k > 0 {
      ShiftDownDrop(a[1..], s, k - 1);
      assert a[1..][k - 1..] == a[k..];
      assert ShiftDown(a, s)[k..] == ShiftDown(a[1..], s)[k - 1..];
    }
  }

  /** a >> shift */
  function ShiftedRight(a: seq<nat>, shift: nat): (r: seq<nat>)
    ensures |r| == |a|
  {
    var k := shift / 32;
    if k >= |a| then Zeros(|a|) else ShiftDown(a, shift % 32)[k..] + Zeros(k)
  }

  lemma DropLimbs(a: seq<nat>, k: nat)
    requires AreLimbs(a) && k <= |a|
    ensures Value(a[k..]) == Shr(Value(a), 32 * k)
  {
    ValueSplit(a, k);
    ValueBound(a[..k]);
    DropDigits(Value(a), Value(a[..k]), Value(a[k..]), k);
  }

  lemma DropDigits(v: nat, low: nat, high: nat, k: nat)
    requires v == low + Lift(high, k) && low < Modulus(k)
    ensures Shr(v, 32 * k) == high
  {
    LiftIs(1, k);
    LiftIsShl(1, k);
    LiftIsShl(high, k);
    ShrShl(high, low, 32 * k);
  }

  lemma AppendZeros(t: seq<nat>, k: nat)
    ensures Value(t + Zeros(k)) == Value(t)
  {
    ValueConcat(t, Zeros(k));
    ValueZeros(Zeros(k));
    LiftIs(0, |t|);
  }

  lemma ShrAll(x: nat, n: nat, shift: nat)
    requires x < Modulus(n) && 32 * n <= shift
    ensures Shr(x, shift) == 0
  {
    LiftIs(1, n);
    LiftIsShl(1, n);
    ShlLonger(32 * n, shift);
    ZeroShifts(shift);
    ShrShl(0, x, shift);
  }

  /** The right shift divides by a power of two, rounding down. */
  lemma ShiftRightIs(a: seq<nat>, shift: nat)
    requires AreLimbs(a)
    ensures AreLimbs(ShiftedRight(a, shift)) && Value(ShiftedRight(a, shift)) == Shr(Value(a), shift)
  {
    var k, s := shift / 32, shift % 32;
    if k >= |a| {
      ValueBound(a);
      ShrAll(Value(a), |a|, shift);
      ValueZeros(Zeros(|a|));
    } else {
      MovedDown(a, k, s);
    }
  }

  lemma MovedDown(a: seq<nat>, k: nat, s: nat)
    requires AreLimbs(a) && k <= |a| && s < 32
    ensures AreLimbs(ShiftDown(a, s)[k..] + Zeros(k))
    ensures Value(ShiftDown(a, s)[k..] + Zeros(k)) == Shr(Value(a), 32 * k + s)
  {
    ShiftDownDrop(a, s, k);
    DropLimbs(a, k);
    ShrTwice(Value(a), 32 * k, s);
    ShiftDownExact(a[k..], s);
    AppendZeros(ShiftDown(a[k..], s), k);
  }
}
