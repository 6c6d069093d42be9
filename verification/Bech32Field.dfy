/** GF(1024), the field in which the Bech32 generator has its roots: polynomials in z over GF(2)
    modulo z^10 + z^8 + z^5 + z + 1, ten coefficients to a number.  Sums are exclusive ors. */
module Bech32Field {
  /** z x: the leading coefficient comes back as z^8 + z^5 + z + 1. */
  function Shifted(x: bv10): bv10 {
    var t := x >> 9;
    (x << 1) ^ t ^ (t << 1) ^ (t << 5) ^ (t << 8)
  }

  lemma ShiftedLinear(x: bv10, y: bv10)
    ensures Shifted(x ^ y) == Shifted(x) ^ Shifted(y)
  {
  }

  // ----- polynomials in z ---------------------------------------------------------------------------------

  /** All ten bits are the last bit of y. */
  function Mask(y: bv10): bv10 { 0 - (y & 1) }

  /** r, and x where m is set. */
  function Add(x: bv10, m: bv10, r: bv10): bv10 { (x & m) ^ r }

  /** By Horner's rule: the coefficients of y are taken in from the leading one on. */
  function Product(x: bv10, y: bv10): bv10 {
    Add(x, Mask(y), Shifted(Add(x, Mask(y >> 1), Shifted(Add(x, Mask(y >> 2), Shifted(Add(x, Mask(y >> 3), Shifted(
    Add(x, Mask(y >> 4), Shifted(UpperProduct(x, y)))))))))))
  }

  function UpperProduct(x: bv10, y: bv10): bv10 {
    Add(x, Mask(y >> 5), Shifted(Add(x, Mask(y >> 6), Shifted(Add(x, Mask(y >> 7), Shifted(Add(x, Mask(y >> 8), Shifted(
    Add(x, Mask(y >> 9), 0)))))))))
  }

  lemma ProductOne(y: bv10)
    ensures Product(1, y) == y
  {
  }

  predicate AllOrNone(m: bv10) { m == 0 || m == 0x3ff }

  lemma Masks(y: bv10)
    ensures AllOrNone(Mask(y))
  {
  }

  lemma AddMoves(x: bv10, m: bv10, r: bv10)
    requires AllOrNone(m)
    ensures Add(Shifted(x), m, Shifted(r)) == Shifted(Add(x, m, r))
  {
    if m == 0 {
      assert (x & 0) ^ r == r && (Shifted(x) & 0) ^ Shifted(r) == Shifted(r);
    } else {
      assert (x & 0x3ff) ^ r == x ^ r && (Shifted(x) & 0x3ff) ^ Shifted(r) == Shifted(x) ^ Shifted(r);
      ShiftedLinear(x, r);
    }
  }

  lemma AddsMove(x: bv10, m1: bv10, m2: bv10, m3: bv10, m4: bv10, m5: bv10, r: bv10)
    requires AllOrNone(m1) && AllOrNone(m2) && AllOrNone(m3) && AllOrNone(m4) && AllOrNone(m5)
    ensures Add(Shifted(x), m1, Shifted(Add(Shifted(x), m2, Shifted(Add(Shifted(x), m3, Shifted(Add(Shifted(x), m4, Shifted(
              Add(Shifted(x), m5, Shifted(r))))))))))
         == Shifted(Add(x, m1, Shifted(Add(x, m2, Shifted(Add(x, m3, Shifted(Add(x, m4, Shifted(Add(x, m5, r))))))))))
  {
    AddMoves(x, m5, r);
    var r5 := Shifted(Add(x, m5, r));
    AddMoves(x, m4, r5);
    var r4 := Shifted(Add(x, m4, r5));
    AddMoves(x, m3, r4);
    var r3 := Shifted(Add(x, m3, r4));
    AddMoves(x, m2, r3);
    AddMoves(x, m1, Shifted(Add(x, m2, r3)));
  }

  lemma UpperMoves(x: bv10, y: bv10)
    ensures UpperProduct(Shifted(x), y) == Shifted(UpperProduct(x, y))
  {
    Masks(y >> 5);
    Masks(y >> 6);
    Masks(y >> 7);
    Masks(y >> 8);
    Masks(y >> 9);
    assert Shifted(0) == 0;
    AddsMove(x, Mask(y >> 5), Mask(y >> 6), Mask(y >> 7), Mask(y >> 8), Mask(y >> 9), 0);
  }

  lemma ProductMoves(x: bv10, y: bv10)
    ensures Product(Shifted(x), y) == Shifted(Product(x, y))
  {
    Masks(y);
    Masks(y >> 1);
    Masks(y >> 2);
    Masks(y >> 3);
    Masks(y >> 4);
    UpperMoves(x, y);
    AddsMove(x, Mask(y), Mask(y >> 1), Mask(y >> 2), Mask(y >> 3), Mask(y >> 4), Shifted(UpperProduct(x, y)));
  }

  lemma ShiftedInjective(x: bv10, y: bv10)
    requires Shifted(x) == Shifted(y)
    ensures x == y
  {
  }

  // ----- elements: sums and multiples by z, closed to the solver ----------------------------------------------

  datatype Element = Element(bits: bv10)

  const ZERO := Element(0)
  const ONE := Element(1)

  /** k is not read: the definition is stated for every k so that the solver does not unfold it
      unless a particular k is named. */
  ghost predicate SumAt(k: nat, x: Element, y: Element, r: Element) { r == Element(x.bits ^ y.bits) }
  ghost predicate IsSum(x: Element, y: Element, r: Element) { forall k :: SumAt(k, x, y, r) }

  /** x + y; only PlusIs opens it. */
  ghost function Plus(x: Element, y: Element): Element {
    assert IsSum(x, y, Element(x.bits ^ y.bits));
    var r :| IsSum(x, y, r);
    r
  }

  lemma PlusIs(x: Element, y: Element)
    ensures Plus(x, y) == Element(x.bits ^ y.bits)
  {
    assert SumAt(0, x, y, Plus(x, y));
  }

  /** Closed by k in the same way. */
  ghost predicate MultipleAt(k: nat, x: Element, r: Element) { r == Element(Shifted(x.bits)) }
  ghost predicate IsMultiple(x: Element, r: Element) { forall k :: MultipleAt(k, x, r) }

  /** z x; only TimesZIs opens it. */
  ghost function TimesZ(x: Element): Element {
    assert IsMultiple(x, Element(Shifted(x.bits)));
    var r :| IsMultiple(x, r);
    r
  }

  lemma TimesZIs(x: Element)
    ensures TimesZ(x) == Element(Shifted(x.bits))
  {
    assert MultipleAt(0, x, TimesZ(x));
  }

  lemma PlusZero(x: Element)
    ensures Plus(x, ZERO) == x == Plus(ZERO, x)
  {
    PlusIs(x, ZERO);
    PlusIs(ZERO, x);
  }

  lemma PlusApart(x: Element, y: Element)
    ensures Plus(x, y) == ZERO <==> x == y
  {
    PlusIs(x, y);
  }

  lemma PlusCommutes(x: Element, y: Element)
    ensures Plus(x, y) == Plus(y, x)
  {
    PlusIs(x, y);
    PlusIs(y, x);
  }

  lemma PlusAssociates(x: Element, y: Element, w: Element)
    ensures Plus(Plus(x, y), w) == Plus(x, Plus(y, w))
  {
    var left := TwoSums(x, y, w);
    var right := TwoSums(y, w, x);
    Associates(x.bits, y.bits, w.bits);
    PlusCommutes(x, Plus(y, w));
  }

  lemma TwoSums(x: Element, y: Element, w: Element) returns (r: bv10)
    ensures r == x.bits ^ y.bits ^ w.bits && Plus(Plus(x, y), w) == Element(r)
  {
    PlusIs(x, y);
    PlusIs(Plus(x, y), w);
    r := x.bits ^ y.bits ^ w.bits;
  }

  lemma Associates(x: bv10, y: bv10, w: bv10)
    ensures x ^ y ^ w == y ^ w ^ x
  {
  }

  lemma PlusRegroup(x: Element, y: Element, u: Element, v: Element)
    ensures Plus(Plus(x, y), Plus(u, v)) == Plus(Plus(x, u), Plus(y, v))
  {
    PlusAssociates(x, y, Plus(u, v));
    PlusAssociates(y, u, v);
    PlusCommutes(y, u);
    PlusAssociates(u, y, v);
    PlusAssociates(x, u, Plus(y, v));
  }

  /** The sum of three elements. */
  ghost function Three(x: Element, y: Element, w: Element): Element { Plus(Plus(x, y), w) }

  lemma Eliminate(x: Element, y: Element, w: Element, x': Element, y': Element)
    requires Three(x, y, w) == ZERO && Three(x', y', w) == ZERO
    ensures Plus(x, x') == Plus(y, y')
  {
    PlusApart(Plus(x, y), w);
    PlusApart(Plus(x', y'), w);
    PlusApart(Plus(x, y), Plus(x', y'));
    PlusRegroup(x, y, x', y');
    PlusApart(Plus(x, x'), Plus(y, y'));
  }

  // ----- powers of z --------------------------------------------------------------------------------------

  /** z^n x. */
  ghost function Power(n: nat, x: Element): Element {
    if n == 0 then x else TimesZ(Power(n - 1, x))
  }

  lemma TimesZLinear(x: Element, y: Element)
    ensures TimesZ(Plus(x, y)) == Plus(TimesZ(x), TimesZ(y))
  {
    TimesZIs(x);
    TimesZIs(y);
    PlusIs(x, y);
    TimesZIs(Plus(x, y));
    PlusIs(TimesZ(x), TimesZ(y));
    ShiftedLinear(x.bits, y.bits);
  }

  lemma TimesZInjective(x: Element, y: Element)
    requires TimesZ(x) == TimesZ(y)
    ensures x == y
  {
    TimesZIs(x);
    TimesZIs(y);
    ShiftedInjective(x.bits, y.bits);
  }

  lemma {:induction false} PowerLinear(n: nat, x: Element, y: Element)
    ensures Power(n, Plus(x, y)) == Plus(Power(n, x), Power(n, y))
  {
    if n > 0 {
      PowerLinear(n - 1, x, y);
      TimesZLinear(Power(n - 1, x), Power(n - 1, y));
    }
  }

  lemma {:induction false} PowerSum(m: nat, n: nat, x: Element)
    ensures Power(m, Power(n, x)) == Power(m + n, x)
  {
    if m > 0 {
      PowerSum(m - 1, n, x);
    }
  }

  lemma Swap(m: nat, n: nat, x: Element)
    ensures Power(m, Power(n, x)) == Power(n, Power(m, x))
  {
    PowerSum(m, n, x);
    PowerSum(n, m, x);
  }

  lemma {:induction false} PowerInjective(n: nat, x: Element, y: Element)
    requires Power(n, x) == Power(n, y)
    ensures x == y
  {
    if n > 0 {
      TimesZInjective(Power(n - 1, x), Power(n - 1, y));
      PowerInjective(n - 1, x, y);
    }
  }

  lemma {:induction false} PowerOfZero(n: nat)
    ensures Power(n, ZERO) == ZERO
  {
    if n > 0 {
      PowerOfZero(n - 1);
      TimesZIs(ZERO);
    }
  }

  lemma PowerOfThree(n: nat, x: Element, y: Element, w: Element)
    requires Three(x, y, w) == ZERO
    ensures Three(Power(n, x), Power(n, y), Power(n, w)) == ZERO
  {
    PowerLinear(n, x, y);
    PowerLinear(n, Plus(x, y), w);
    PowerOfZero(n);
  }

  // ----- the order of z -----------------------------------------------------------------------------------

  /** A power of z acts by the product with what it makes of one. */
  lemma {:induction false} PowerActs(n: nat, y: Element)
    ensures Power(n, y) == Element(Product(Power(n, ONE).bits, y.bits))
  {
    if n == 0 {
      ProductOne(y.bits);
    } else {
      var before := Power(n - 1, ONE);
      PowerActs(n - 1, y);
      ProductMoves(before.bits, y.bits);
      TimesZIs(before);
      TimesZIs(Power(n - 1, y));
    }
  }

  /** z^n is u. */
  ghost predicate PowerIs(n: nat, u: bv10) { Power(n, ONE) == Element(u) }

  lemma Join(m: nat, u: bv10, n: nat, v: bv10)
    requires PowerIs(m, u) && PowerIs(n, v)
    ensures PowerIs(m + n, Product(u, v))
  {
    PowerSum(m, n, ONE);
    PowerActs(m, Element(v));
  }

  lemma LowPowers()
    ensures PowerIs(1, 0x2) && PowerIs(2, 0x4) && PowerIs(4, 0x10) && PowerIs(8, 0x100) && PowerIs(16, 0x119)
  {
    assert Power(1, ONE) == TimesZ(Power(0, ONE));
    TimesZIs(ONE);
    Join(1, 0x2, 1, 0x2);
    Join(2, 0x4, 2, 0x4);
    Join(4, 0x10, 4, 0x10);
    Join(8, 0x100, 8, 0x100);
  }

  lemma HighPowers()
    ensures PowerIs(32, 0x58) && PowerIs(64, 0xef) && PowerIs(128, 0x346) && PowerIs(256, 0x1e5) && PowerIs(512, 0x21b)
  {
    LowPowers();
    Join(16, 0x119, 16, 0x119);
    Join(32, 0x58, 32, 0x58);
    Join(64, 0xef, 64, 0xef);
    Join(128, 0x346, 128, 0x346);
    Join(256, 0x1e5, 256, 0x1e5);
  }

  lemma LongPowers()
    ensures PowerIs(33, 0xb0) && PowerIs(93, 0x36a) && PowerIs(341, 0x36)
  {
    LowPowers();
    HighPowers();
    Join(32, 0x58, 1, 0x2);
    Join(64, 0xef, 16, 0x119);
    Join(80, 0x198, 8, 0x100);
    Join(88, 0xed, 4, 0x10);
    Join(92, 0x1b5, 1, 0x2);
    Join(256, 0x1e5, 80, 0x198);
    Join(336, 0x2c2, 4, 0x10);
    Join(340, 0x1b, 1, 0x2);
  }

  /** z^1023 = 1. */
  lemma FullTurn(y: Element)
    ensures Power(1023, y) == y
  {
    LongPowers();
    Join(341, 0x36, 341, 0x36);
    Join(682, 0x37, 341, 0x36);
    PowerActs(1023, y);
    ProductOne(y.bits);
  }

  lemma NoShortTurn(y: Element)
    requires Power(33, y) == y || Power(93, y) == y || Power(341, y) == y
    ensures y == ZERO
  {
    LongPowers();
    if Power(33, y) == y {
      PowerActs(33, y);
      No33(y.bits);
    } else if Power(93, y) == y {
      PowerActs(93, y);
      No93(y.bits);
    } else {
      PowerActs(341, y);
      No341(y.bits);
    }
  }

  lemma No33(y: bv10)
    requires Product(0xb0, y) == y
    ensures y == 0
  {
  }

  lemma No93(y: bv10)
    requires Product(0x36a, y) == y
    ensures y == 0
  {
  }

  lemma No341(y: bv10)
    requires Product(0x36, y) == y
    ensures y == 0
  {
  }

  lemma {:induction false} Turns(g: nat, k: nat, y: Element)
    requires Power(g, y) == y
    ensures Power(g * k, y) == y
    decreases k
  {
    if k > 0 {
      Turns(g, k - 1, y);
      assert g * k == g + g * (k - 1);
      PowerSum(g, g * (k - 1), y);
    }
  }

  /** Euclid's algorithm: a common divisor of two exponents that leave y alone leaves it alone too. */
  lemma {:induction false} CommonTurn(a: nat, b: nat, y: Element) returns (g: nat, p: nat, q: nat)
    requires 0 < a && 0 < b && Power(a, y) == y && Power(b, y) == y
    ensures Power(g, y) == y && a == g * p && b == g * q && g <= a
    decreases a + b
  {
    if a == b {
      g, p, q := a, 1, 1;
    } else if a < b {
      Shorter(a, b, y);
      g, p, q := CommonTurn(a, b - a, y);
      q := p + q;
    } else {
      Shorter(b, a, y);
      g, p, q := CommonTurn(a - b, b, y);
      p := p + q;
    }
  }

  lemma Shorter(a: nat, b: nat, y: Element)
    requires a < b && Power(a, y) == Power(b, y)
    ensures Power(b - a, y) == y
  {
    PowerSum(a, b - a, y);
    PowerInjective(a, y, Power(b - a, y));
  }

  /** A proper divisor of 1023 = 3 * 11 * 31 divides 341, 93 or 33. */
  lemma ProperDivisor(g: nat, q: nat) returns (k: nat)
    requires g * q == 1023 && g < 1023
    ensures g * k == 33 || g * k == 93 || g * k == 341
  {
    if g < 32 {
      SmallDivisor(g, q);
      k := if g == 31 then 3 else if g == 1 then 33 else if g == 3 then 11 else 3;
    } else {
      OneIsSmall(g, q);
      SmallDivisor(q, g);
      k := 1;
    }
  }

  lemma OneIsSmall(g: nat, q: nat)
    ensures 32 <= g && 32 <= q ==> g * q >= 1024
  {
  }

  lemma SmallDivisor(g: nat, q: nat)
    requires g * q == 1023 && g < 32
    ensures g == 1 || g == 3 || g == 11 || g == 31
    ensures g == 1 ==> q == 1023
    ensures g == 3 ==> q == 341
    ensures g == 11 ==> q == 93
    ensures g == 31 ==> q == 33
  {
    assert 1023 % g == 0;
  }

  /** z is primitive: fewer than 1023 steps lead no element but zero back to itself. */
  lemma NoTurn(d: nat, y: Element)
    requires 0 < d < 1023 && Power(d, y) == y
    ensures y == ZERO
  {
    FullTurn(y);
    var g, p, q := CommonTurn(d, 1023, y);
    var k := ProperDivisor(g, q);
    Turns(g, k, y);
    NoShortTurn(y);
  }

  lemma DifferentPowers(a: nat, b: nat, y: Element)
    requires a != b && a < b + 1023 && b < a + 1023 && Power(a, y) == Power(b, y)
    ensures y == ZERO
  {
    if a < b {
      Shorter(a, b, y);
      NoTurn(b - a, y);
    } else {
      Shorter(b, a, y);
      NoTurn(a - b, y);
    }
  }

  // ----- three terms ----------------------------------------------------------------------------------------

  lemma Second(a: nat, b: nat, c: nat, x: Element, y: Element, w: Element)
    requires Three(Power(a, x), Power(b, y), Power(c, w)) == ZERO
    requires Three(Power(a, Power(a, x)), Power(b, Power(b, y)), Power(c, Power(c, w))) == ZERO
    ensures Power(a, Plus(Power(a, x), Power(c, x))) == Power(b, Plus(Power(b, y), Power(c, y)))
  {
    PowerOfThree(c, Power(a, x), Power(b, y), Power(c, w));
    Eliminate(Power(a, Power(a, x)), Power(b, Power(b, y)), Power(c, Power(c, w)),
              Power(c, Power(a, x)), Power(c, Power(b, y)));
    Swap(a, c, x);
    Swap(b, c, y);
    PowerLinear(a, Power(a, x), Power(c, x));
    PowerLinear(b, Power(b, y), Power(c, y));
  }

  /** If three terms add up to zero as they are, with weights z^a, z^b, z^c and with the squares of
      these, the first is zero if its weight differs from the others. */
  lemma FirstIsZero(a: nat, b: nat, c: nat, x: Element, y: Element, w: Element)
    requires a != b && a < b + 1023 && b < a + 1023
    requires a != c && a < c + 1023 && c < a + 1023
    requires Three(x, y, w) == ZERO
    requires Three(Power(a, x), Power(b, y), Power(c, w)) == ZERO
    requires Three(Power(a, Power(a, x)), Power(b, Power(b, y)), Power(c, Power(c, w))) == ZERO
    ensures x == ZERO
  {
    var u := Plus(Power(a, x), Power(c, x));
    PowerOfThree(c, x, y, w);
    Eliminate(Power(a, x), Power(b, y), Power(c, w), Power(c, x), Power(c, y));
    Second(a, b, c, x, y, w);
    DifferentPowers(a, b, u);
    PlusApart(Power(a, x), Power(c, x));
    DifferentPowers(a, c, x);
  }

  /** If the weights are different all three terms are zero: the Vandermonde determinant of different
      powers of z is not. */
  lemma Vandermonde(a: nat, b: nat, c: nat, x: Element, y: Element, w: Element)
    requires a != b && a < b + 1023 && b < a + 1023
    requires a != c && a < c + 1023 && c < a + 1023
    requires b != c && b < c + 1023 && c < b + 1023
    requires Three(x, y, w) == ZERO
    requires Three(Power(a, x), Power(b, y), Power(c, w)) == ZERO
    requires Three(Power(a, Power(a, x)), Power(b, Power(b, y)), Power(c, Power(c, w))) == ZERO
    ensures x == y == w == ZERO
  {
    FirstIsZero(a, b, c, x, y, w);
    PowerOfZero(a);
    PlusZero(y);
    PlusZero(Power(b, y));
    PlusApart(y, w);
    PlusApart(Power(b, y), Power(c, w));
    DifferentPowers(b, c, y);
  }
}
