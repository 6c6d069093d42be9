/** The roots of the Bech32 generator: GF(32) inside GF(1024), the generator at z^24, z^25 and z^26,
    and what the division of PolyMod leaves of the value of a polynomial at such a root. */
module Bech32Roots {
  import opened Bits
  import opened Bech32Checksum
  import opened Bech32Field

  // ----- GF(32) inside GF(1024) ------------------------------------------------------------------------

  /** a^n x, where a is z^924: the root of a^5 + a^3 + 1. */
  ghost function RootPower(n: nat, x: Element): Element {
    if n == 0 then x else Power(924, RootPower(n - 1, x))
  }

  /** x times the element of GF(32) with the n low bits of c. */
  ghost function Scaled(c: nat, x: Element, n: nat): Element
    decreases n, c
  {
    if n == 0 then ZERO
    else if Bit(c, n - 1) then Plus(Scaled(c, x, n - 1), RootPower(n - 1, x))
    else Scaled(c, x, n - 1)
  }

  /** The element of GF(1024) a symbol stands for. */
  ghost function Embedded(c: nat): Element { Scaled(c, ONE, 5) }

  lemma PlusCommon(x: Element, y: Element, k: Element)
    ensures Plus(Plus(x, k), y) == Plus(Plus(x, y), k) && Plus(x, Plus(y, k)) == Plus(Plus(x, y), k)
    ensures Plus(Plus(x, k), Plus(y, k)) == Plus(x, y)
  {
    PlusAssociates(x, k, y);
    PlusCommutes(k, y);
    PlusAssociates(x, y, k);
    PlusRegroup(x, k, y, k);
    PlusApart(k, k);
    PlusZero(Plus(x, y));
  }

  lemma {:induction false} ScaledXor(c: nat, d: nat, x: Element, n: nat)
    ensures Scaled(Xor(c, d), x, n) == Plus(Scaled(c, x, n), Scaled(d, x, n))
    decreases n
  {
    if n == 0 {
      PlusZero(ZERO);
    } else {
      ScaledXor(c, d, x, n - 1);
      XorBit(c, d, n - 1);
      PlusCommon(Scaled(c, x, n - 1), Scaled(d, x, n - 1), RootPower(n - 1, x));
    }
  }

  lemma {:induction false} RootPowerLinear(n: nat, x: Element, y: Element)
    ensures RootPower(n, Plus(x, y)) == Plus(RootPower(n, x), RootPower(n, y))
  {
    if n > 0 {
      RootPowerLinear(n - 1, x, y);
      PowerLinear(924, RootPower(n - 1, x), RootPower(n - 1, y));
    }
  }

  lemma {:induction false} ScaledPlus(c: nat, x: Element, y: Element, n: nat)
    ensures Scaled(c, Plus(x, y), n) == Plus(Scaled(c, x, n), Scaled(c, y, n))
    decreases n
  {
    if n == 0 {
      PlusZero(ZERO);
    } else {
      ScaledPlus(c, x, y, n - 1);
      RootPowerLinear(n - 1, x, y);
      PlusRegroup(Scaled(c, x, n - 1), Scaled(c, y, n - 1), RootPower(n - 1, x), RootPower(n - 1, y));
    }
  }

  lemma {:induction false} RootPowerMoves(n: nat, m: nat, x: Element)
    ensures RootPower(n, Power(m, x)) == Power(m, RootPower(n, x))
    decreases n
  {
    if n > 0 {
      RootPowerMoves(n - 1, m, x);
      Swap(924, m, RootPower(n - 1, x));
    }
  }

  lemma {:induction false} ScaledMoves(c: nat, m: nat, x: Element, n: nat)
    ensures Scaled(c, Power(m, x), n) == Power(m, Scaled(c, x, n))
    decreases n
  {
    if n == 0 {
      PowerOfZero(m);
    } else {
      ScaledMoves(c, m, x, n - 1);
      RootPowerMoves(n - 1, m, x);
      PowerLinear(m, Scaled(c, x, n - 1), RootPower(n - 1, x));
    }
  }

  lemma {:induction false} ScaledZero(c: nat, n: nat)
    ensures Scaled(c, ZERO, n) == ZERO
    decreases n
  {
    if n > 0 {
      ScaledZero(c, n - 1);
      RootPowerOfZero(n - 1);
      PlusZero(ZERO);
    }
  }

  lemma {:induction false} RootPowerOfZero(n: nat)
    ensures RootPower(n, ZERO) == ZERO
  {
    if n > 0 {
      RootPowerOfZero(n - 1);
      PowerOfZero(924);
    }
  }

  /** Doubling a symbol multiplies by a. */
  lemma {:induction false} ScaledDouble(c: nat, x: Element, n: nat)
    ensures Scaled(2 * c, x, n + 1) == Power(924, Scaled(c, x, n))
    decreases n
  {
    if n == 0 {
      assert Scaled(2 * c, x, 0) == ZERO && !Bit(2 * c, 0);
      PowerOfZero(924);
    } else {
      ScaledDouble(c, x, n - 1);
      assert Bit(2 * c, n) == Bit(c, n - 1);
      PowerLinear(924, Scaled(c, x, n - 1), RootPower(n - 1, x));
    }
  }

  lemma {:induction false} ScaledLow(c: nat, d: nat, x: Element, n: nat)
    requires forall k :: 0 <= k < n ==> Bit(c, k) == Bit(d, k)
    ensures Scaled(c, x, n) == Scaled(d, x, n)
    decreases n
  {
    if n > 0 {
      ScaledLow(c, d, x, n - 1);
    }
  }

  // ----- the embedding respects the products of GF(32) --------------------------------------------------

  lemma RootIs()
    ensures PowerIs(924, 0xe)
  {
    LowPowers();
    HighPowers();
    Join(512, 0x21b, 256, 0x1e5);
    Join(768, 0x17, 128, 0x346);
    Join(896, 0x126, 16, 0x119);
    Join(912, 0xfb, 8, 0x100);
    Join(920, 0x235, 4, 0x10);
  }

  lemma TimesRoot(u: bv10)
    ensures Power(924, Element(u)) == Element(Product(0xe, u))
  {
    RootIs();
    PowerActs(924, Element(u));
  }

  lemma RootPowers()
    ensures RootPower(0, ONE) == Element(0x1) && RootPower(1, ONE) == Element(0xe)
    ensures RootPower(2, ONE) == Element(0x54) && RootPower(3, ONE) == Element(0x358)
    ensures RootPower(4, ONE) == Element(0xbf) && RootPower(5, ONE) == Element(0x359)
  {
    TimesRoot(0x1);
    assert RootPower(1, ONE) == Element(0xe);
    TimesRoot(0xe);
    assert RootPower(2, ONE) == Element(0x54);
    TimesRoot(0x54);
    assert RootPower(3, ONE) == Element(0x358);
    TimesRoot(0x358);
    assert RootPower(4, ONE) == Element(0xbf);
    TimesRoot(0xbf);
  }

  /** u is added if b is set. */
  function Added(b: bool, sum: bv10, u: bv10): bv10 { if b then sum ^ u else sum }

  lemma AddBit(c: nat, n: nat, b: bool, sum: bv10, u: bv10) returns (r: bv10)
    requires b == Bit(c, n) && Scaled(c, ONE, n) == Element(sum) && RootPower(n, ONE) == Element(u)
    ensures r == Added(b, sum, u) && Scaled(c, ONE, n + 1) == Element(r)
  {
    r := Added(b, sum, u);
    SumOf(b, sum, u);
    ScaledNext(c, n, b, Element(sum), Element(u));
  }

  lemma SumOf(b: bool, sum: bv10, u: bv10)
    ensures Element(Added(b, sum, u)) == if b then Plus(Element(sum), Element(u)) else Element(sum)
  {
    PlusIs(Element(sum), Element(u));
  }

  lemma ScaledNext(c: nat, n: nat, b: bool, s: Element, v: Element)
    requires b == Bit(c, n) && Scaled(c, ONE, n) == s && RootPower(n, ONE) == v
    ensures Scaled(c, ONE, n + 1) == if b then Plus(s, v) else s
  {
  }

  function Combined(b0: bool, b1: bool, b2: bool, b3: bool, b4: bool): bv10 {
    Added(b4, Added(b3, Added(b2, Added(b1, Added(b0, 0, 0x1), 0xe), 0x54), 0x358), 0xbf)
  }

  lemma EmbeddedIs(c: nat, b0: bool, b1: bool, b2: bool, b3: bool, b4: bool)
    requires b0 == Bit(c, 0) && b1 == Bit(c, 1) && b2 == Bit(c, 2) && b3 == Bit(c, 3) && b4 == Bit(c, 4)
    ensures Embedded(c) == Element(Combined(b0, b1, b2, b3, b4))
  {
    RootPowers();
    var r := AddBit(c, 0, b0, 0, 0x1);
    r := AddBit(c, 1, b1, r, 0xe);
    r := AddBit(c, 2, b2, r, 0x54);
    r := AddBit(c, 3, b3, r, 0x358);
    r := AddBit(c, 4, b4, r, 0xbf);
  }

  /** Only zero stands for zero. */
  lemma EmbeddedNonZero(c: nat)
    requires c < 32 && Embedded(c) == ZERO
    ensures c == 0
  {
    var b0, b1, b2, b3, b4 := Bit(c, 0), Bit(c, 1), Bit(c, 2), Bit(c, 3), Bit(c, 4);
    EmbeddedIs(c, b0, b1, b2, b3, b4);
    CombinedNonZero(b0, b1, b2, b3, b4);
    NoBits(c);
  }

  lemma CombinedNonZero(b0: bool, b1: bool, b2: bool, b3: bool, b4: bool)
    requires Combined(b0, b1, b2, b3, b4) == 0
    ensures !b0 && !b1 && !b2 && !b3 && !b4
  {
  }

  /** a^5 = a^3 + 1. */
  lemma RootEquation()
    ensures RootPower(5, ONE) == Embedded(9)
  {
    EmbeddedIs(9, true, false, false, true, false);
    RootPowers();
  }

  lemma TimesAEmbedded(y: nat)
    requires y < 32
    ensures Embedded(TimesA(y)) == Power(924, Embedded(y))
  {
    var low := if y < 16 then y else y - 16;
    SameLowBits(y, low);
    ScaledDouble(low, ONE, 4);
    ScaledLow(y, low, ONE, 4);
    if y >= 16 {
      RootEquation();
      ScaledXor(2 * low, 9, ONE, 5);
      PowerLinear(924, Scaled(y, ONE, 4), RootPower(4, ONE));
    }
  }

  lemma SameLowBits(y: nat, low: nat)
    requires low < 16 && (y == low || y == 16 + low)
    ensures forall k :: 0 <= k < 4 ==> Bit(y, k) == Bit(low, k)
    ensures Bit(y, 4) == (y != low)
  {
    var m := if y == low then 0 else 1;
    assert Shl(m, 2) == 4 * m && Shl(1, 2) == 4;
    assert Shl(m, 4) == 16 * m && Shl(1, 4) == 16;
    forall k | 0 <= k < 4 ensures Bit(y, k) == Bit(low, k) {
      BitBelow(low, m, 4, k);
    }
    BitAt(low, m, 4);
  }

  lemma {:induction false} BitBelow(low: nat, m: nat, n: nat, k: nat)
    requires k < n
    ensures Bit(low + Shl(m, n), k) == Bit(low, k)
    decreases n
  {
    if k > 0 {
      assert (low + Shl(m, n)) / 2 == low / 2 + Shl(m, n - 1);
      BitBelow(low / 2, m, n - 1, k - 1);
    }
  }

  lemma {:induction false} BitAt(low: nat, m: nat, n: nat)
    requires low < Shl(1, n)
    ensures Bit(low + Shl(m, n), n) == Bit(m, 0)
    decreases n
  {
    if n > 0 {
      assert (low + Shl(m, n)) / 2 == low / 2 + Shl(m, n - 1);
      BitAt(low / 2, m, n - 1);
    }
  }

  lemma {:induction false} RaisedEmbedded(x: nat, n: nat)
    requires x < 32
    ensures Embedded(Raised(x, n)) == RootPower(n, Embedded(x))
    decreases n
  {
    if n > 0 {
      RaisedEmbedded(x, n - 1);
      RaisedSmall(x, n - 1);
      TimesAEmbedded(Raised(x, n - 1));
    }
  }

  /** The product of GF(32) that PolyMod uses is the product of GF(1024). */
  lemma {:induction false} TimesEmbedded(c: nat, x: nat, n: nat)
    requires x < 32
    ensures Embedded(Times(c, x, n)) == Scaled(c, Embedded(x), n)
    decreases n
  {
    if n == 0 {
      ScaledNothing(5);
    } else {
      TimesEmbedded(c, x, n - 1);
      RaisedEmbedded(x, n - 1);
      ScaledXor(Times(c, x, n - 1), Raised(x, n - 1), ONE, 5);
    }
  }

  lemma {:induction false} ScaledNothing(n: nat)
    ensures Scaled(0, ONE, n) == ZERO
  {
    if n > 0 {
      ScaledNothing(n - 1);
      NoBitOfZero(n - 1);
    }
  }

  // ----- polynomials and the roots of the generator -----------------------------------------------------

  /** The polynomial with coefficients vs at z^w, by Horner's rule. */
  ghost function ValueAt(w: nat, vs: seq<nat>): Element {
    if vs == [] then ZERO else Plus(Power(w, ValueAt(w, vs[..|vs| - 1])), Embedded(vs[|vs| - 1]))
  }

  lemma {:induction false} ValueDifference(w: nat, vs: seq<nat>, ws: seq<nat>)
    requires |vs| == |ws|
    ensures ValueAt(w, Difference(vs, ws)) == Plus(ValueAt(w, vs), ValueAt(w, ws))
  {
    if vs == [] {
      PlusZero(ZERO);
    } else {
      var n := |vs| - 1;
      var x, y := ValueAt(w, vs[..n]), ValueAt(w, ws[..n]);
      ValueDifference(w, vs[..n], ws[..n]);
      assert Difference(vs, ws)[..n] == Difference(vs[..n], ws[..n]);
      PowerLinear(w, x, y);
      ScaledXor(vs[n], ws[n], ONE, 5);
      PlusRegroup(Power(w, x), Power(w, y), Embedded(vs[n]), Embedded(ws[n]));
    }
  }

  lemma {:induction false} ValueProducts(w: nat, c: nat, vs: seq<nat>, ps: seq<nat>)
    requires |vs| == |ps| && AllSmall(vs) && forall i :: 0 <= i < |vs| ==> ps[i] == Times(c, vs[i], 5)
    ensures ValueAt(w, ps) == Scaled(c, ValueAt(w, vs), 5)
  {
    if vs == [] {
      ScaledZero(c, 5);
    } else {
      var n := |vs| - 1;
      var x := ValueAt(w, vs[..n]);
      ValueProducts(w, c, vs[..n], ps[..n]);
      TimesEmbedded(c, vs[n], 5);
      ScaledMoves(c, w, x, 5);
      ScaledPlus(c, Power(w, x), Embedded(vs[n]), 5);
    }
  }

  lemma Acts(w: nat, z: bv10, u: bv10)
    requires PowerIs(w, z)
    ensures Power(w, Element(u)) == Element(Product(z, u))
  {
    PowerActs(w, Element(u));
  }

  lemma Coefficients()
    ensures Embedded(29) == Element(0x3b2) && Embedded(22) == Element(0xe5) && Embedded(20) == Element(0xeb)
    ensures Embedded(21) == Element(0xea) && Embedded(18) == Element(0xb1)
  {
    EmbeddedIs(29, true, false, true, true, true);
    EmbeddedIs(22, false, true, true, false, true);
    EmbeddedIs(20, false, false, true, false, true);
    EmbeddedIs(21, true, false, true, false, true);
    EmbeddedIs(18, false, true, false, false, true);
  }

  /** The lower part of the generator at z^w. */
  lemma LowerValue(w: nat)
    ensures ValueAt(w, Lower()) ==
      Plus(Power(w, Plus(Power(w, Plus(Power(w, Plus(Power(w, Plus(Power(w, Embedded(29)), Embedded(22))),
        Embedded(20))), Embedded(21))), Embedded(29))), Embedded(18))
  {
    NextValue(w, [], 29);
    PowerOfZero(w);
    PlusZero(Embedded(29));
    NextValue(w, [] + [29], 22);
    NextValue(w, [] + [29] + [22], 20);
    NextValue(w, [] + [29] + [22] + [20], 21);
    NextValue(w, [] + [29] + [22] + [20] + [21], 29);
    NextValue(w, [] + [29] + [22] + [20] + [21] + [29], 18);
    assert [] + [29] + [22] + [20] + [21] + [29] + [18] == Lower();
  }

  lemma NextValue(w: nat, vs: seq<nat>, v: nat)
    ensures ValueAt(w, vs + [v]) == Plus(Power(w, ValueAt(w, vs)), Embedded(v))
  {
    assert (vs + [v])[..|vs|] == vs;
  }

  /** z^w is a root of the generator. */
  ghost predicate IsRoot(w: nat) { ValueAt(w, Lower()) == Power(6 * w, ONE) }

  lemma SixthPower(w: nat, z: bv10, z2: bv10, z4: bv10, z6: bv10)
    requires PowerIs(w, z) && z2 == Product(z, z) && z4 == Product(z2, z2) && z6 == Product(z4, z2)
    ensures PowerIs(6 * w, z6)
  {
    Join(w, z, w, z);
    Join(w + w, z2, w + w, z2);
    Join(w + w + (w + w), z4, w + w, z2);
  }

  /** z^24, z^25 and z^26 are roots of the generator. */
  lemma Roots()
    ensures IsRoot(24) && IsRoot(25) && IsRoot(26)
  {
    LowPowers();
    Join(16, 0x119, 8, 0x100);
    Join(24, 0x3f0, 1, 0x2);
    Join(24, 0x3f0, 2, 0x4);
    Root24();
    Root25();
    Root26();
  }

  lemma Root24()
    requires PowerIs(24, 0x3f0)
    ensures IsRoot(24)
  {
    LowerValue(24);
    Coefficients();
    Acts(24, 0x3f0, 0x3b2);
    PlusIs(Element(0x98), Element(0xe5));
    Acts(24, 0x3f0, 0x7d);
    PlusIs(Element(0x96), Element(0xeb));
    Acts(24, 0x3f0, 0x7d);
    PlusIs(Element(0x96), Element(0xea));
    Acts(24, 0x3f0, 0x7c);
    PlusIs(Element(0x366), Element(0x3b2));
    Acts(24, 0x3f0, 0xd4);
    PlusIs(Element(0x20b), Element(0xb1));
    SixthPower(24, 0x3f0, 0x24d, 0xb9, 0x2ba);
  }

  lemma Root25()
    requires PowerIs(25, 0x2c3)
    ensures IsRoot(25)
  {
    LowerValue(25);
    Coefficients();
    Acts(25, 0x2c3, 0x3b2);
    PlusIs(Element(0x130), Element(0xe5));
    Acts(25, 0x2c3, 0x1d5);
    PlusIs(Element(0x346), Element(0xeb));
    Acts(25, 0x2c3, 0x3ad);
    PlusIs(Element(0x83), Element(0xea));
    Acts(25, 0x2c3, 0x69);
    PlusIs(Element(0x6d), Element(0x3b2));
    Acts(25, 0x2c3, 0x3df);
    PlusIs(Element(0x17), Element(0xb1));
    SixthPower(25, 0x2c3, 0x372, 0x1d6, 0xa6);
  }

  lemma Root26()
    requires PowerIs(26, 0xa5)
    ensures IsRoot(26)
  {
    LowerValue(26);
    Coefficients();
    Acts(26, 0xa5, 0x3b2);
    PlusIs(Element(0x260), Element(0xe5));
    Acts(26, 0xa5, 0x285);
    PlusIs(Element(0x41), Element(0xeb));
    Acts(26, 0xa5, 0xaa);
    PlusIs(Element(0x1dd), Element(0xea));
    Acts(26, 0xa5, 0x137);
    PlusIs(Element(0x221), Element(0x3b2));
    Acts(26, 0xa5, 0x193);
    PlusIs(Element(0x29), Element(0xb1));
    SixthPower(26, 0xa5, 0x2ad, 0x3aa, 0x98);
  }

  // ----- values survive the division ----------------------------------------------------------------------

  /** z^w to the m times x. */
  ghost function Jump(w: nat, m: nat, x: Element): Element
    decreases m
  {
    if m == 0 then x else Power(w, Jump(w, m - 1, x))
  }

  lemma {:induction false} JumpIs(w: nat, m: nat, x: Element)
    ensures Jump(w, m, x) == Power(w * m, x)
    decreases m
  {
    if m > 0 {
      JumpIs(w, m - 1, x);
      PowerSum(w, w * (m - 1), x);
      assert w * m == w + w * (m - 1);
    }
  }

  /** The leading coefficient apart. */
  lemma {:induction false} ValueLeading(w: nat, v: nat, vs: seq<nat>)
    ensures ValueAt(w, [v] + vs) == Plus(Jump(w, |vs|, Embedded(v)), ValueAt(w, vs))
    decreases |vs|
  {
    if vs == [] {
      assert ([v] + vs)[..0] == [] && ([v] + vs)[0] == v;
      PowerOfZero(w);
      PlusZero(Embedded(v));
    } else {
      var n := |vs| - 1;
      ValueLeading(w, v, vs[..n]);
      assert ([v] + vs)[..n + 1] == [v] + vs[..n];
      PowerLinear(w, Jump(w, n, Embedded(v)), ValueAt(w, vs[..n]));
      PlusAssociates(Jump(w, n + 1, Embedded(v)), Power(w, ValueAt(w, vs[..n])), Embedded(vs[n]));
    }
  }

  /** At a root, c times the lower part is c times the leading term. */
  lemma ProductsAtRoot(w: nat, c: nat)
    requires IsRoot(w)
    ensures ValueAt(w, Products(c, 5)) == Jump(w, 6, Embedded(c))
  {
    ValueProducts(w, c, Lower(), Products(c, 5));
    ScaledMoves(c, 6 * w, ONE, 5);
    JumpIs(w, 6, Embedded(c));
  }

  /** A step of the division multiplies the value at a root by the root and adds the symbol. */
  lemma RemainderAtRoot(w: nat, p: seq<nat>, v: nat)
    requires IsRoot(w) && |p| == 6
    ensures ValueAt(w, Remainder(p, v)) == Plus(Power(w, ValueAt(w, p)), Embedded(v))
  {
    var low, c := p[1..], p[0];
    ProductsAtRoot(w, c);
    ValueDifference(w, low + [v], Products(c, 5));
    assert (low + [v])[..5] == low;
    assert p == [c] + low;
    ValueLeading(w, c, low);
    PowerLinear(w, Jump(w, 5, Embedded(c)), ValueAt(w, low));
    var lead, rest := Jump(w, 6, Embedded(c)), Power(w, ValueAt(w, low));
    PlusCommutes(Plus(rest, Embedded(v)), lead);
    PlusAssociates(lead, rest, Embedded(v));
  }

  /** The six coefficients left by the division. */
  ghost function Rest(vs: seq<nat>): (r: seq<nat>)
    ensures |r| == 6
  {
    if vs == [] then Zeros(6) else Remainder(Rest(vs[..|vs| - 1]), vs[|vs| - 1])
  }

  lemma {:induction false} RestIs(vs: seq<nat>)
    requires AllSmall(vs)
    ensures AllSmall(Rest(vs)) && Fed(0, vs) == Packed(Rest(vs))
  {
    if vs == [] {
      SixPacked(Zeros(6));
      ZeroStays(Zeros(6));
    } else {
      var n := |vs| - 1;
      var p := Rest(vs[..n]);
      RestIs(vs[..n]);
      StepIsRemainder(p, vs[n]);
      ReducedIs(p[1..] + [vs[n]], p[0], 5);
      DifferenceOf(p[1..] + [vs[n]], Products(p[0], 5));
    }
  }

  lemma {:induction false} RestAtRoot(w: nat, vs: seq<nat>)
    requires IsRoot(w)
    ensures ValueAt(w, Rest(vs)) == ValueAt(w, vs)
  {
    if vs == [] {
      ValueOfZeros(w, Zeros(6));
    } else {
      var n := |vs| - 1;
      RestAtRoot(w, vs[..n]);
      RemainderAtRoot(w, Rest(vs[..n]), vs[n]);
    }
  }

  lemma {:induction false} ValueOfZeros(w: nat, zeros: seq<nat>)
    requires AllZero(zeros)
    ensures ValueAt(w, zeros) == ZERO
  {
    if zeros != [] {
      ValueOfZeros(w, zeros[..|zeros| - 1]);
      PowerOfZero(w);
      ScaledNothing(5);
      PlusZero(ZERO);
    }
  }

  /** Errors that leave the register clear have value zero at every root. */
  lemma ClearAtRoot(w: nat, e: seq<nat>)
    requires IsRoot(w) && AllSmall(e) && Fed(0, e) == 0
    ensures ValueAt(w, e) == ZERO
  {
    RestIs(e);
    PackedBelow(Rest(e));
    ValueOfZeros(w, Rest(e));
    RestAtRoot(w, e);
  }
}
