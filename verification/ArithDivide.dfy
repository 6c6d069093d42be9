/** Shift-subtract division of base_uint. */
module ArithDivide {
  import opened Bits
  import opened Limbs
  import opened LimbOps
  import opened ArithUint
  import opened ArithShift

  // ----- setting one bit of the quotient ------------------------------------------------------------------------

  /** x is a multiple of 2^k. */
  ghost predicate Multiple(x: nat, k: nat) { exists y: nat :: x == Shl(y, k) }

  /** The k low bits of a limb, and all bits of limbs below, are clear. */
  ghost predicate LowClear(s: seq<nat>, k: nat) {
    && (forall i :: 0 <= i < |s| && 32 * (i + 1) <= k ==> s[i] == 0)
    && (forall i :: 0 <= i < |s| && 32 * i < k < 32 * (i + 1) ==> Multiple(s[i], k - 32 * i))
  }

  lemma MultipleHalf(x: nat, k: nat)
    requires Multiple(x, k + 1)
    ensures Multiple(x, k)
  {
    var y: nat :| x == Shl(y, k + 1);
    ShlTwice(y, 1, k);
    assert x == Shl(Shl(y, 1), k);
  }

  lemma MultipleZero(k: nat)
    ensures Multiple(0, k)
  {
    ZeroShifts(k);
    assert 0 == Shl(0, k);
  }

  lemma LowClearLess(s: seq<nat>, k: nat)
    requires LowClear(s, k + 1)
    ensures LowClear(s, k)
  {
    forall i | 0 <= i < |s| && 32 * i < k < 32 * (i + 1) ensures Multiple(s[i], k - 32 * i) {
      if k + 1 == 32 * (i + 1) {
        MultipleZero(k - 32 * i);
      } else {
        MultipleHalf(s[i], k - 32 * i);
      }
    }
  }

  /** Bit t of a limb whose bits up to t are clear. */
  lemma SetLimbBit(x: nat, t: nat)
    requires x < 0x1_0000_0000 && t < 32 && Multiple(x, t + 1)
    ensures Or(x, Shl(1, t)) == x + Shl(1, t) < 0x1_0000_0000 && Multiple(x + Shl(1, t), t)
  {
    var y: nat :| x == Shl(y, t + 1);
    ShlPositive(t);
    OrIsSum(t + 1, Shl(1, t), y);
    BitFits(y, t);
    ShlTwice(y, 1, t);
    ShlSum(Shl(y, 1), 1, t);
    assert x + Shl(1, t) == Shl(Shl(y, 1) + 1, t);
  }

  /** A multiple of 2^(t+1) below 2^32 has room for bit t. */
  lemma BitFits(y: nat, t: nat)
    requires t < 32 && Shl(y, t + 1) < 0x1_0000_0000
    ensures Shl(y, t + 1) + Shl(1, t) < 0x1_0000_0000
  {
    ShlTwice(1, 31 - t, t + 1);
    Shl32(1);
    if y >= Shl(1, 31 - t) {
      ShlMonotone(Shl(1, 31 - t), y, t + 1);
    }
    ShlMonotone(y + 1, Shl(1, 31 - t), t + 1);
    ShlSum(y, 1, t + 1);
    ShlPositive(t);
  }

  lemma UpdateLimb(s: seq<nat>, i: nat, x: nat)
    requires i < |s|
    ensures Value(s[i := x]) == Value(s) + Lift(x - s[i], i)
  {
    var t := s[i := x];
    ValueSplit(s, i);
    ValueSplit(t, i);
    assert t[..i] == s[..i] && t[i..][1..] == s[i..][1..];
    LiftSum(Value(t[i..]), Value(s[i..]), i);
  }

  lemma SetBit(s: seq<nat>, k: nat)
    requires AreLimbs(s) && k < 32 * |s| && LowClear(s, k + 1)
    ensures var t := s[k / 32 := Or(s[k / 32], Shl(1, k % 32))];
      AreLimbs(t) && Value(t) == Value(s) + Shl(1, k) && LowClear(t, k)
  {
    var i, b := k / 32, k % 32;
    LowClearLess(s, k);
    if b == 31 {
      MultipleZero(32);
    }
    SetLimbBit(s[i], b);
    UpdateLimb(s, i, Or(s[i], Shl(1, b)));
    ShlLifts(1, k);
  }

  // ----- the division --------------------------------------------------------------------------------------------

  /** What is left of n after q times d was taken away, below d * 2^k. */
  ghost predicate Dividing(q: nat, num: nat, n: nat, d: nat, k: nat) {
    Times(q, d) + num == n && num < Shl(d, k)
  }

  lemma TimesSum(x: nat, y: nat, d: nat)
    ensures Times(x + y, d) == Times(x, d) + Times(y, d)
  {
    TimesIs(x, d);
    TimesIs(y, d);
    TimesIs(x + y, d);
  }

  lemma {:induction false} TimesPower(k: nat, d: nat)
    ensures Times(Shl(1, k), d) == Shl(d, k)
  {
    if k == 0 {
      assert Times(1, d) == d + Times(0, d);
    } else {
      TimesPower(k - 1, d);
      TimesSum(Shl(1, k - 1), Shl(1, k - 1), d);
    }
  }

  /** The aligned divisor fits once: take it away and set bit k. */
  lemma TakeAway(q: nat, num: nat, n: nat, d: nat, k: nat)
    requires Dividing(q, num, n, d, k + 1) && Shl(d, k) <= num
    ensures Dividing(q + Shl(1, k), num - Shl(d, k), n, d, k)
  {
    TimesSum(q, Shl(1, k), d);
    TimesPower(k, d);
  }

  /** The end: q and num are the quotient and the remainder. */
  lemma Divided(q: nat, num: nat, n: nat, d: nat)
    requires Dividing(q, num, n, d, 0)
    ensures d > 0 && q == n / d && num == n % d
  {
    TimesIs(q, d);
    ModUnique(n, num, q, d);
    assert n == d * (n / d) + n % d;
    SameQuotient(q, n / d, d);
  }

  lemma SameQuotient(q: nat, r: nat, d: nat)
    requires d > 0 && q * d == d * r
    ensures q == r
  {
    assert (q - r) * d == q * d - d * r;
    NoZeroFactor(q - r, d);
  }

  lemma NoZeroFactor(x: int, d: nat)
    requires d > 0 && x * d == 0
    ensures x == 0
  {
  }

  /** Aligned by bit lengths, the divisor does not overflow and doubling it exceeds the dividend. */
  lemma Aligned(n: nat, d: nat, k: nat, db: nat)
    requires 0 < db && n < Shl(1, db + k) && Shl(1, db - 1) <= d < Shl(1, db)
    ensures Shl(d, k) < Shl(1, db + k) && n < Shl(d, k + 1)
  {
    ShiftedBelow(d, db, k);
    ShiftedAbove(d, db - 1, k + 1);
  }

  lemma ShiftedBelow(d: nat, j: nat, k: nat)
    requires d < Shl(1, j)
    ensures Shl(d, k) < Shl(1, j + k)
  {
    ShlMonotone(d + 1, Shl(1, j), k);
    ShlSum(d, 1, k);
    ShlPositive(k);
    ShlTwice(1, j, k);
  }

  lemma ShiftedAbove(d: nat, j: nat, k: nat)
    requires Shl(1, j) <= d
    ensures Shl(1, j + k) <= Shl(d, k)
  {
    ShlMonotone(Shl(1, j), d, k);
    ShlTwice(1, j, k);
  }

  lemma Shorter(n: nat, d: nat, nb: nat, db: nat)
    requires IsBitLength(n, nb) && IsBitLength(d, db) && nb < db
    ensures n < d
  {
    ShlPositive(db - 1);
    if nb > 0 {
      ShlLonger(nb, db - 1);
    }
  }

  lemma WrapsExact(x: nat, v: nat, n: nat)
    requires Wraps(x, v, n) && x < Modulus(n)
    ensures v == x
  {
    var k :| x == v + Lift(k, n);
    LiftIs(k, n);
    SmallMultiple(k, Modulus(n), x - v);
  }

  lemma BitsFit(nb: nat, n: nat)
    requires nb <= 32 * n
    ensures Shl(1, nb) <= Modulus(n)
  {
    ShlLonger(nb, 32 * n);
    LiftIsShl(1, n);
    LiftIs(1, n);
  }

  /** One round of the loop. */
  method Round(pn: array<nat>, num: array<nat>, div: array<nat>, shift: nat, ghost n: nat, ghost d: nat)
    requires pn.Length == num.Length == div.Length && shift < 32 * pn.Length
    requires pn != num && pn != div && num != div
    requires AreLimbs(pn[..]) && AreLimbs(num[..]) && AreLimbs(div[..])
    requires Dividing(Value(pn[..]), Value(num[..]), n, d, shift + 1)
    requires Value(div[..]) == Shl(d, shift) && LowClear(pn[..], shift + 1)
    modifies pn, num, div
    ensures AreLimbs(pn[..]) && AreLimbs(num[..]) && AreLimbs(div[..])
    ensures Dividing(Value(pn[..]), Value(num[..]), n, d, shift) && LowClear(pn[..], shift)
    ensures shift > 0 ==> Value(div[..]) == Shl(d, shift - 1)
  {
    var order := CompareTo(num, div);
    if order >= 0 {
      SetBit(pn[..], shift);
      TakeAway(Value(pn[..]), Value(num[..]), n, d, shift);
      ValueBound(num[..]);
      ghost var rest := Value(num[..]) - Value(div[..]);
      Subtract(num, div);
      WrapsExact(rest, Value(num[..]), num.Length);
      pn[shift / 32] := Or(pn[shift / 32], Shl(1, shift % 32));
    } else {
      LowClearLess(pn[..], shift);
    }
    Halved(d, shift);
    ShiftRight(div, 1);
  }

  lemma Halved(d: nat, shift: nat)
    ensures shift > 0 ==> Shr(Shl(d, shift), 1) == Shl(d, shift - 1)
  {
    if shift > 0 {
      assert Shl(1, 1) == 2;
      ShlTwice(d, shift - 1, 1);
      ShrShl(Shl(d, shift - 1), 0, 1);
    }
  }

  /** operator/=: the floor of the quotient, or false for the division by zero exception, which
      leaves the target cleared. */
  method Divide(pn: array<nat>, b: array<nat>) returns (ok: bool)
    requires pn.Length == b.Length > 0 && AreLimbs(pn[..]) && AreLimbs(b[..])
    modifies pn
    ensures AreLimbs(pn[..]) && ok == (old(Value(b[..])) != 0)
    ensures ok ==> Value(pn[..]) == old(Value(pn[..])) / old(Value(b[..]))
    ensures !ok ==> Value(pn[..]) == 0
  {
    ghost var n, d := Value(pn[..]), Value(b[..]);
    var div := CopyOf(b);
    var num := CopyOf(pn);
    SetZero(pn);
    ValueZeros(pn[..]);
    var numBits := BitLength(num);
    var divBits := BitLength(div);
    if divBits == 0 {
      return false;
    }
    if divBits > numBits {
      Shorter(n, d, numBits, divBits);
      Divided(0, n, n, d);
      return true;
    }
    DivideAligned(pn, num, div, numBits, divBits, n, d);
    return true;
  }

  method DivideAligned(pn: array<nat>, num: array<nat>, div: array<nat>, numBits: nat, divBits: nat, ghost n: nat, ghost d: nat)
    requires pn.Length == num.Length == div.Length && pn != num && pn != div && num != div
    requires AreLimbs(num[..]) && AreLimbs(div[..]) && pn[..] == Zeros(pn.Length)
    requires n == Value(num[..]) && d == Value(div[..])
    requires IsBitLength(n, numBits) && IsBitLength(d, divBits) && 0 < divBits <= numBits <= 32 * pn.Length
    modifies pn, num, div
    ensures AreLimbs(pn[..]) && d > 0 && Value(pn[..]) == n / d
  {
    var shift := numBits - divBits;
    Aligned(n, d, shift, divBits);
    BitsFit(numBits, pn.Length);
    ShiftLeft(div, shift);
    WrapsExact(Shl(d, shift), Value(div[..]), pn.Length);
    ValueZeros(pn[..]);
    assert Dividing(0, n, n, d, shift + 1);
    ZerosClear(pn[..], shift + 1);
    Rounds(pn, num, div, shift, n, d);
    Divided(Value(pn[..]), Value(num[..]), n, d);
  }

  /** The loop, down to the last bit. */
  method Rounds(pn: array<nat>, num: array<nat>, div: array<nat>, top: nat, ghost n: nat, ghost d: nat)
    requires pn.Length == num.Length == div.Length && top < 32 * pn.Length
    requires pn != num && pn != div && num != div
    requires AreLimbs(pn[..]) && AreLimbs(num[..]) && AreLimbs(div[..])
    requires Dividing(Value(pn[..]), Value(num[..]), n, d, top + 1)
    requires Value(div[..]) == Shl(d, top) && LowClear(pn[..], top + 1)
    modifies pn, num, div
    ensures AreLimbs(pn[..]) && Dividing(Value(pn[..]), Value(num[..]), n, d, 0)
  {
    var shift: int := top;
    while shift >= 0
      invariant -1 <= shift < 32 * pn.Length
      invariant AreLimbs(pn[..]) && AreLimbs(num[..]) && AreLimbs(div[..])
      invariant Dividing(Value(pn[..]), Value(num[..]), n, d, shift + 1) && LowClear(pn[..], shift + 1)
      invariant shift >= 0 ==> Value(div[..]) == Shl(d, shift)
    {
      Round(pn, num, div, shift, n, d);
      shift := shift - 1;
    }
  }

  lemma ZerosClear(s: seq<nat>, k: nat)
    requires forall i :: 0 <= i < |s| ==> s[i] == 0
    ensures LowClear(s, k)
  {
    forall i | 0 <= i < |s| && 32 * i < k < 32 * (i + 1) ensures Multiple(s[i], k - 32 * i) {
      MultipleZero(k - 32 * i);
    }
  }
}
