/** The in-place operations of base_uint on an array of 32-bit limbs, for every width.  Operands
    may be the same array wherever the source allows it. */
module ArithUint {
  import opened Bits
  import opened Limbs
  import opened LimbOps

  // ----- addition, negation, subtraction ------------------------------------------------------------------

  /** After i limbs, what is done and the carry determine the rest. */
  ghost predicate SumAt(a: seq<nat>, b: seq<nat>, done: seq<nat>, i: nat, carry: nat) {
    && |a| == |b| && i <= |a|
    && Sum(a, b, 0) == (done + Sum(a[i..], b[i..], carry).0, Sum(a[i..], b[i..], carry).1)
  }

  lemma SumStarts(a: seq<nat>, b: seq<nat>)
    requires |a| == |b|
    ensures SumAt(a, b, [], 0, 0)
  {
    assert a[0..] == a && b[0..] == b && [] + Sum(a, b, 0).0 == Sum(a, b, 0).0;
  }

  lemma SumStep(a: seq<nat>, b: seq<nat>, done: seq<nat>, i: nat, carry: nat)
    requires SumAt(a, b, done, i, carry) && i < |a|
    ensures var n := carry + a[i] + b[i];
      SumAt(a, b, done + [n % 0x1_0000_0000], i + 1, n / 0x1_0000_0000)
  {
    var n := carry + a[i] + b[i];
    assert a[i..][1..] == a[i + 1..] && b[i..][1..] == b[i + 1..];
    var rest := Sum(a[i + 1..], b[i + 1..], n / 0x1_0000_0000).0;
    assert done + ([n % 0x1_0000_0000] + rest) == (done + [n % 0x1_0000_0000]) + rest;
  }

  lemma SumEnds(a: seq<nat>, b: seq<nat>, done: seq<nat>, carry: nat)
    requires SumAt(a, b, done, |a|, carry)
    ensures Sum(a, b, 0).0 == done
  {
    assert done + [] == done;
  }

  /** operator+= */
  method Add(pn: array<nat>, b: array<nat>)
    requires pn.Length == b.Length && AreLimbs(pn[..]) && AreLimbs(b[..])
    modifies pn
    ensures AreLimbs(pn[..]) && pn[..] == Sum(old(pn[..]), old(b[..]), 0).0
    ensures Wraps(old(Value(pn[..]) + Value(b[..])), Value(pn[..]), pn.Length)
  {
    ghost var a0, b0 := pn[..], b[..];
    SumStarts(a0, b0);
    var carry := 0;
    var i := 0;
    while i < pn.Length
      invariant 0 <= i <= pn.Length && carry <= 1 && SumAt(a0, b0, pn[..i], i, carry)
      invariant forall j :: i <= j < pn.Length ==> pn[j] == a0[j] && b[j] == b0[j]
    {
      SumStep(a0, b0, pn[..i], i, carry);
      var n := carry + pn[i] + b[i];
      assert n < 0x1_0000_0000_0000_0000;
      pn[i] := n % 0x1_0000_0000;
      carry := n / 0x1_0000_0000;
      i := i + 1;
      assert pn[..i] == pn[..i - 1] + [pn[i - 1]];
    }
    SumEnds(a0, b0, pn[..i], carry);
    assert pn[..i] == pn[..];
    SumWraps(a0, b0);
  }

  /** After i full limbs were wrapped to zero. */
  ghost predicate NextAt(a: seq<nat>, r: seq<nat>, i: nat) {
    && i < |a| == |r|
    && (forall j :: 0 <= j < i ==> a[j] == 0xffff_ffff && r[j] == 0)
    && (forall j :: i < j < |a| ==> r[j] == a[j])
  }

  lemma {:induction false} NextEnds(a: seq<nat>, r: seq<nat>, i: nat)
    requires NextAt(a, r, i) && (if a[i] == 0xffff_ffff then r[i] == 0 && i == |a| - 1 else r[i] == a[i] + 1)
    ensures r == Next(a)
    decreases i
  {
    assert r == [r[0]] + r[1..];
    if i == 0 {
      assert r[1..] == a[1..];
    } else {
      NextEnds(a[1..], r[1..], i - 1);
    }
  }

  /** The prefix operator++. */
  method Increment(pn: array<nat>)
    requires pn.Length > 0 && AreLimbs(pn[..])
    modifies pn
    ensures pn[..] == Next(old(pn[..])) && AreLimbs(pn[..])
  {
    ghost var a := pn[..];
    var i := 0;
    pn[i] := if pn[i] == 0xffff_ffff then 0 else pn[i] + 1;
    while pn[i] == 0 && i < pn.Length - 1
      invariant 0 <= i < pn.Length && NextAt(a, pn[..], i)
      invariant pn[i] == if a[i] == 0xffff_ffff then 0 else a[i] + 1
      decreases pn.Length - i
    {
      i := i + 1;
      pn[i] := if pn[i] == 0xffff_ffff then 0 else pn[i] + 1;
    }
    NextEnds(a, pn[..], i);
    NextIs(a);
  }

  /** After i zero limbs were wrapped to full. */
  ghost predicate PreviousAt(a: seq<nat>, r: seq<nat>, i: nat) {
    && i < |a| == |r|
    && (forall j :: 0 <= j < i ==> a[j] == 0 && r[j] == 0xffff_ffff)
    && (forall j :: i < j < |a| ==> r[j] == a[j])
  }

  lemma {:induction false} PreviousEnds(a: seq<nat>, r: seq<nat>, i: nat)
    requires PreviousAt(a, r, i) && (if a[i] == 0 then r[i] == 0xffff_ffff && i == |a| - 1 else r[i] == a[i] - 1)
    ensures r == Previous(a)
    decreases i
  {
    assert r == [r[0]] + r[1..];
    if i == 0 {
      assert r[1..] == a[1..];
    } else {
      PreviousEnds(a[1..], r[1..], i - 1);
    }
  }

  /** The prefix operator--. */
  method Decrement(pn: array<nat>)
    requires pn.Length > 0 && AreLimbs(pn[..])
    modifies pn
    ensures pn[..] == Previous(old(pn[..])) && AreLimbs(pn[..])
  {
    ghost var a := pn[..];
    var i := 0;
    pn[i] := if pn[i] == 0 then 0xffff_ffff else pn[i] - 1;
    while pn[i] == 0xffff_ffff && i < pn.Length - 1
      invariant 0 <= i < pn.Length && PreviousAt(a, pn[..], i)
      invariant pn[i] == if a[i] == 0 then 0xffff_ffff else a[i] - 1
      decreases pn.Length - i
    {
      i := i + 1;
      pn[i] := if pn[i] == 0 then 0xffff_ffff else pn[i] - 1;
    }
    PreviousEnds(a, pn[..], i);
    PreviousNext(a);
  }

  /** Unary minus: a new number. */
  method Negate(b: array<nat>) returns (ret: array<nat>)
    requires b.Length > 0 && AreLimbs(b[..])
    ensures fresh(ret) && ret[..] == Negated(b[..]) && AreLimbs(ret[..])
    ensures Value(ret[..]) == if Value(b[..]) == 0 then 0 else Modulus(b.Length) - Value(b[..])
  {
    ret := new nat[b.Length](i => 0);
    var i := 0;
    while i < b.Length
      invariant 0 <= i <= b.Length && forall j :: 0 <= j < i ==> ret[j] == 0xffff_ffff - b[j]
    {
      ret[i] := 0xffff_ffff - b[i];
      i := i + 1;
    }
    assert ret[..] == Inverted(b[..]);
    NegatedIs(b[..]);
    Increment(ret);
  }

  /** operator-=, by adding the negation. */
  method Subtract(pn: array<nat>, b: array<nat>)
    requires pn.Length == b.Length > 0 && AreLimbs(pn[..]) && AreLimbs(b[..])
    modifies pn
    ensures AreLimbs(pn[..])
    ensures Wraps(old(Value(pn[..]) - Value(b[..])), Value(pn[..]), pn.Length)
  {
    var c := Negate(b);
    DifferenceWraps(pn[..], b[..]);
    Add(pn, c);
  }

  // ----- products -----------------------------------------------------------------------------------------

  method CopyOf(b: array<nat>) returns (c: array<nat>)
    ensures fresh(c) && c[..] == b[..]
  {
    c := new nat[b.Length](i => 0);
    var i := 0;
    while i < b.Length
      invariant 0 <= i <= b.Length && c[..i] == b[..i]
    {
      c[i] := b[i];
      i := i + 1;
    }
  }

  method SetZero(pn: array<nat>)
    modifies pn
    ensures pn[..] == Zeros(pn.Length)
  {
    var i := 0;
    while i < pn.Length
      invariant 0 <= i <= pn.Length && pn[..i] == Zeros(i)
    {
      pn[i] := 0;
      i := i + 1;
    }
  }

  ghost predicate RowAt(p: seq<nat>, b: seq<nat>, d: nat, done: seq<nat>, i: nat, carry: nat) {
    && i <= |p| <= |b|
    && Row(p, b, d, 0) == (done + Row(p[i..], b[i..], d, carry).0, Row(p[i..], b[i..], d, carry).1)
  }

  lemma RowStarts(p: seq<nat>, b: seq<nat>, d: nat)
    requires |p| <= |b|
    ensures RowAt(p, b, d, [], 0, 0)
  {
    assert p[0..] == p && b[0..] == b && [] + Row(p, b, d, 0).0 == Row(p, b, d, 0).0;
  }

  /** low and high are the halves of the accumulator. */
  ghost predicate Halves(carry: nat, p: nat, d: nat, b: nat, low: nat, high: nat) {
    carry + p + d * b == low + 0x1_0000_0000 * high && low < 0x1_0000_0000
  }

  lemma RowStep(p: seq<nat>, b: seq<nat>, d: nat, done: seq<nat>, i: nat, carry: nat, low: nat, high: nat)
    requires RowAt(p, b, d, done, i, carry) && i < |p| && Halves(carry, p[i], d, b[i], low, high)
    ensures RowAt(p, b, d, done + [low], i + 1, high)
  {
    assert p[i..][1..] == p[i + 1..] && b[i..][1..] == b[i + 1..];
    RowUnfold(p[i..], b[i..], d, carry, low, high);
    var rest := Row(p[i + 1..], b[i + 1..], d, high).0;
    assert done + ([low] + rest) == (done + [low]) + rest;
  }

  lemma RowUnfold(p: seq<nat>, b: seq<nat>, d: nat, carry: nat, low: nat, high: nat)
    requires 0 < |p| <= |b| && Halves(carry, p[0], d, b[0], low, high)
    ensures var rest := Row(p[1..], b[1..], d, high); Row(p, b, d, carry) == ([low] + rest.0, rest.1)
  {
    HalvesAre(carry + p[0] + d * b[0], low, high);
  }

  lemma HalvesAre(n: nat, low: nat, high: nat)
    requires n == low + 0x1_0000_0000 * high && low < 0x1_0000_0000
    ensures n % 0x1_0000_0000 == low && n / 0x1_0000_0000 == high
  {
  }

  lemma RowEnds(p: seq<nat>, b: seq<nat>, d: nat, done: seq<nat>, carry: nat)
    requires RowAt(p, b, d, done, |p|, carry)
    ensures Row(p, b, d, 0) == (done, carry)
  {
    assert done + [] == done;
  }

  /** The 64-bit accumulator: it never overflows, and its high half is again a limb. */
  method Accumulate(carry: nat, p: nat, d: nat, b: nat) returns (low: nat, high: nat)
    requires carry < 0x1_0000_0000 && p < 0x1_0000_0000 && d < 0x1_0000_0000 && b < 0x1_0000_0000
    ensures Halves(carry, p, d, b, low, high) && high < 0x1_0000_0000
    ensures carry == 0 && p == 0 && b == 0 ==> low == 0 && high == 0
  {
    AccumulatorFits(carry, p, d, b);
    var n := carry + p + d * b;
    assert n < 0x1_0000_0000_0000_0000;
    low, high := n % 0x1_0000_0000, n / 0x1_0000_0000;
  }

  /** operator*= with a 32-bit factor. */
  method MultiplyWord(pn: array<nat>, d: nat)
    requires AreLimbs(pn[..]) && d < 0x1_0000_0000
    modifies pn
    ensures AreLimbs(pn[..]) && Wraps(d * old(Value(pn[..])), Value(pn[..]), pn.Length)
  {
    ghost var a, z := pn[..], Zeros(pn.Length);
    RowStarts(z, a, d);
    var carry: nat := 0;
    var i := 0;
    while i < pn.Length
      invariant 0 <= i <= pn.Length && carry < 0x1_0000_0000 && RowAt(z, a, d, pn[..i], i, carry)
      invariant forall j :: i <= j < pn.Length ==> pn[j] == a[j]
    {
      var low, high := Accumulate(carry, 0, d, pn[i]);
      RowStep(z, a, d, pn[..i], i, carry, low, high);
      pn[i] := low;
      carry := high;
      i := i + 1;
      assert pn[..i] == pn[..i - 1] + [pn[i - 1]];
    }
    RowEnds(z, a, d, pn[..i], carry);
    assert pn[..i] == pn[..];
    WordWraps(a, d);
  }

  lemma WordWraps(a: seq<nat>, d: nat)
    ensures Wraps(d * Value(a), Value(Row(Zeros(|a|), a, d, 0).0), |a|)
  {
    var r := Row(Zeros(|a|), a, d, 0);
    RowExact(Zeros(|a|), a, d, 0);
    assert a[..|a|] == a;
    ValueZeros(Zeros(|a|));
    ValueBound(r.0);
    WrapsBy(d * Value(a), Value(r.0), r.1, |a|);
  }

  /** The limbs of p from j on, up to i of them, are overwritten by the row; the rest is as before. */
  ghost predicate Placed(p: seq<nat>, b: seq<nat>, d: nat, j: nat, s: seq<nat>, i: nat, carry: nat) {
    && i + j <= |p| == |b| == |s|
    && s[..j] == p[..j] && s[i + j..] == p[i + j..]
    && RowAt(p[j..], b, d, s[j..i + j], i, carry)
  }

  lemma PlaceStarts(p: seq<nat>, b: seq<nat>, d: nat, j: nat)
    requires j <= |p| == |b|
    ensures Placed(p, b, d, j, p, 0, 0)
  {
    RowStarts(p[j..], b, d);
    assert p[j..j] == [];
  }

  lemma PlaceStep(p: seq<nat>, b: seq<nat>, d: nat, j: nat, s: seq<nat>, i: nat, carry: nat, low: nat, high: nat)
    requires Placed(p, b, d, j, s, i, carry) && i + j < |p| && Halves(carry, s[i + j], d, b[i], low, high)
    ensures Placed(p, b, d, j, s[i + j := low], i + 1, high)
  {
    assert p[j..][i] == p[i + j..][0] == s[i + j..][0] == s[i + j];
    RowStep(p[j..], b, d, s[j..i + j], i, carry, low, high);
    var t := s[i + j := low];
    assert t[j..i + 1 + j] == s[j..i + j] + [low];
    assert t[i + 1 + j..] == s[i + j..][1..] == p[i + j..][1..];
  }

  lemma PlaceEnds(p: seq<nat>, b: seq<nat>, d: nat, j: nat, s: seq<nat>, i: nat, carry: nat)
    requires Placed(p, b, d, j, s, i, carry) && i + j == |p|
    ensures s == p[..j] + Row(p[j..], b, d, 0).0
  {
    RowEnds(p[j..], b, d, s[j..i + j], carry);
    assert s == s[..j] + s[j..i + j];
  }

  /** The number is all zero. */
  ghost predicate Clear(pn: array<nat>)
    reads pn
  {
    forall k :: 0 <= k < pn.Length ==> pn[k] == 0
  }

  /** One turn of the inner loop of *=. */
  method AddLimb(pn: array<nat>, b: array<nat>, d: nat, j: nat, i: nat, carry: nat) returns (low: nat, high: nat)
    requires i + j < pn.Length == b.Length && d < 0x1_0000_0000 && carry < 0x1_0000_0000
    requires AreLimbs(pn[..]) && AreLimbs(b[..]) && (pn == b ==> carry == 0 && Clear(pn))
    modifies pn
    ensures pn[..] == old(pn[..])[i + j := low] && AreLimbs(pn[..]) && high < 0x1_0000_0000
    ensures b[..] == old(b[..]) && (pn == b ==> high == 0 && Clear(pn))
    ensures Halves(carry, old(pn[i + j]), d, old(b[i]), low, high)
  {
    low, high := Accumulate(carry, pn[i + j], d, b[i]);
    pn[i + j] := low;
  }

  /** The inner loop of *=: one row, from limb j on.  If b is pn itself and pn is zero, nothing
      happens. */
  method AddRow(pn: array<nat>, b: array<nat>, d: nat, j: nat)
    requires pn.Length == b.Length && j <= pn.Length && d < 0x1_0000_0000
    requires AreLimbs(pn[..]) && AreLimbs(b[..])
    requires pn == b ==> Clear(pn)
    modifies pn
    ensures AreLimbs(pn[..])
    ensures pn != b ==> pn[..] == old(pn[..j]) + Row(old(pn[j..]), b[..], d, 0).0
    ensures pn == b ==> Clear(pn)
  {
    ghost var p, f := pn[..], b[..];
    PlaceStarts(p, f, d, j);
    var carry: nat := 0;
    var i := 0;
    while i + j < pn.Length
      invariant 0 <= i && i + j <= pn.Length && carry < 0x1_0000_0000
      invariant AreLimbs(pn[..]) && b[..] == f && (pn == b ==> carry == 0 && Clear(pn))
      invariant Placed(p, f, d, j, pn[..], i, carry)
    {
      ghost var s := pn[..];
      var low, high := AddLimb(pn, b, d, j, i, carry);
      PlaceStep(p, f, d, j, s, i, carry, low, high);
      carry, i := high, i + 1;
    }
    PlaceEnds(p, f, d, j, pn[..], i, carry);
  }

  lemma TakeOneMore(a: seq<nat>, j: nat)
    requires j < |a|
    ensures Value(a[..j + 1]) == Value(a[..j]) + Lift(a[j], j)
  {
    assert a[..j + 1] == a[..j] + [a[j]];
    ValueConcat(a[..j], [a[j]]);
    assert Value([a[j]]) == a[j];
  }

  /** operator*=.  The source clears the target before it reads the other factor, so a number
      multiplied by itself in place becomes zero. */
  method Multiply(pn: array<nat>, b: array<nat>)
    requires pn.Length == b.Length && AreLimbs(pn[..]) && AreLimbs(b[..])
    modifies pn
    ensures AreLimbs(pn[..])
    ensures pn != b ==> Wraps(old(Value(pn[..])) * Value(b[..]), Value(pn[..]), pn.Length)
    ensures pn == b ==> Value(pn[..]) == 0
  {
    var a := CopyOf(pn);
    SetZero(pn);
    ghost var y := Value(b[..]);
    ghost var as0 := a[..];
    ValueZeros(pn[..]);
    WrapsBy(0, 0, 0, pn.Length) by { LiftIs(0, pn.Length); }
    var j := 0;
    while j < pn.Length
      invariant 0 <= j <= pn.Length && AreLimbs(pn[..]) && AreLimbs(b[..]) && a[..] == as0
      invariant pn != b ==> Value(b[..]) == y && Wraps(Times(Value(as0[..j]), y), Value(pn[..]), pn.Length)
      invariant pn == b ==> Clear(pn)
    {
      ghost var low, p := pn[..j], pn[j..];
      assert low + p == pn[..];
      TakeOneMore(as0, j);
      if pn != b {
        RowWraps(Value(as0[..j]), Value(as0[..j + 1]), as0[j], low, p, b[..]);
      }
      AddRow(pn, b, a[j], j);
      j := j + 1;
    }
    assert as0[..j] == as0;
    TimesIs(Value(as0), y);
    if pn == b {
      ValueZeros(pn[..]);
    }
  }
}
