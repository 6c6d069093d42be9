/** The Bech32 checksum: the register of PolyMod as a polynomial remainder over GF(32), its
    linearity, and the errors it detects. */
module Bech32Checksum {
  import opened Bits

  // ----- the checksum register ------------------------------------------------------------------

  /** {2^n}k(x), where k(x) = x^6 mod g(x), six 5-bit coefficients to a word. */
  function Generator(n: nat): nat {
    if n == 0 then 0x3b6a57b2 else if n == 1 then 0x26508e6d else if n == 2 then 0x1ea119fa
    else if n == 3 then 0x3d4233dd else 0x2a1462b3
  }

  /** For each of the n low bits of c0 that is set, add the matching multiple of k(x) to c. */
  function Reduced(c: nat, c0: nat, n: nat): nat
    decreases n, c
  {
    if n == 0 then c
    else if Bit(c0, n - 1) then Xor(Reduced(c, c0, n - 1), Generator(n - 1))
    else Reduced(c, c0, n - 1)
  }

  /** The leading coefficient, and the others moved up one place. */
  function Top(c: nat): nat { c / 0x2000000 }
  function Moved(c: nat): nat { 32 * (c % 0x2000000) }

  function Step(c: nat, v: nat): nat {
    Reduced(Xor(Moved(c), v), Top(c), 5)
  }

  /** The register after reading vs. */
  function Fed(c: nat, vs: seq<nat>): nat {
    if vs == [] then c else Step(Fed(c, vs[..|vs| - 1]), vs[|vs| - 1])
  }

  method PolyMod(v: seq<nat>) returns (c: nat)
    ensures c == Fed(1, v)
  {
    c := 1;
    var i := 0;
    while i < |v|
      invariant 0 <= i <= |v| && c == Fed(1, v[..i])
    {
      assert v[..i + 1][..i] == v[..i];
      c := ReadSymbol(c, v[i]);
      i := i + 1;
    }
    assert v[..|v|] == v;
  }

  /** The loop body of PolyMod. */
  method ReadSymbol(before: nat, v: nat) returns (c: nat)
    ensures c == Step(before, v)
  {
    var c0 := before / 0x2000000;
    c := Xor(32 * (before % 0x2000000), v);
    ghost var s := c;
    if Bit(c0, 0) { c := Xor(c, 0x3b6a57b2); }
    assert c == Reduced(s, c0, 1);
    if Bit(c0, 1) { c := Xor(c, 0x26508e6d); }
    assert c == Reduced(s, c0, 2);
    if Bit(c0, 2) { c := Xor(c, 0x1ea119fa); }
    assert c == Reduced(s, c0, 3);
    if Bit(c0, 3) { c := Xor(c, 0x3d4233dd); }
    assert c == Reduced(s, c0, 4);
    if Bit(c0, 4) { c := Xor(c, 0x2a1462b3); }
  }

  // ----- groups of bits -----------------------------------------------------------------------------

  lemma ShlGroup(a: nat)
    ensures Shl(a, 5) == 32 * a
  {
    assert Shl(a, 1) == 2 * a && Shl(a, 2) == 2 * Shl(a, 1);
    assert Shl(a, 4) == 16 * a;
  }

  lemma ShlGroups(a: nat)
    ensures Shl(a, 25) == 0x2000000 * a && Shl(a, 30) == 0x40000000 * a
  {
    ShlGroup(a);
    ShlTwice(a, 5, 5);
    ShlGroup(32 * a);
    ShlTwice(a, 10, 10);
    ShlTwice(0x400 * a, 5, 5);
    ShlGroup(0x400 * a);
    ShlGroup(0x8000 * a);
    ShlTwice(a, 20, 5);
    ShlGroup(0x100000 * a);
    ShlTwice(a, 25, 5);
    ShlGroup(0x2000000 * a);
  }

  /** The last group is combined separately. */
  lemma XorLast(a: nat, x: nat, b: nat, y: nat)
    requires x < 32 && y < 32
    ensures Xor(32 * a + x, 32 * b + y) == 32 * Xor(a, b) + Xor(x, y) && Xor(x, y) < 32
  {
    ShlGroup(1);
    ShlGroup(a);
    ShlGroup(b);
    ShlGroup(Xor(a, b));
    XorSplit(5, a, x, b, y);
    XorBelow(5, x, y);
  }

  /** The leading group is combined separately. */
  lemma XorFirst(a: nat, x: nat, b: nat, y: nat)
    requires x < 0x2000000 && y < 0x2000000
    ensures Xor(0x2000000 * a + x, 0x2000000 * b + y) == 0x2000000 * Xor(a, b) + Xor(x, y)
    ensures Xor(x, y) < 0x2000000
  {
    ShlGroups(1);
    ShlGroups(a);
    ShlGroups(b);
    ShlGroups(Xor(a, b));
    XorSplit(25, a, x, b, y);
    XorBelow(25, x, y);
  }

  lemma XorTop(c: nat, d: nat)
    ensures Top(Xor(c, d)) == Xor(Top(c), Top(d)) && Moved(Xor(c, d)) == Xor(Moved(c), Moved(d))
  {
    var x, y := c % 0x2000000, d % 0x2000000;
    XorFirst(Top(c), x, Top(d), y);
    XorLast(x, 0, y, 0);
    XorZero(0);
  }

  lemma XorFits(a: nat, b: nat)
    requires a < 0x40000000 && b < 0x40000000
    ensures Xor(a, b) < 0x40000000
  {
    ShlGroups(1);
    XorBelow(30, a, b);
  }

  // ----- linearity ---------------------------------------------------------------------------------

  lemma XorCommon(r: nat, s: nat, k: nat)
    ensures Xor(Xor(r, k), s) == Xor(Xor(r, s), k) && Xor(r, Xor(s, k)) == Xor(Xor(r, s), k)
    ensures Xor(Xor(r, k), Xor(s, k)) == Xor(r, s)
  {
    XorAssociates(r, k, s);
    XorCommutes(k, s);
    XorAssociates(r, s, k);
    XorRegroup(r, k, s, k);
    XorZero(k);
    XorZero(Xor(r, s));
  }

  lemma {:induction false} ReducedLinear(c: nat, d: nat, c0: nat, d0: nat, n: nat)
    ensures Reduced(Xor(c, d), Xor(c0, d0), n) == Xor(Reduced(c, c0, n), Reduced(d, d0, n))
  {
    if n > 0 {
      ReducedLinear(c, d, c0, d0, n - 1);
      XorBit(c0, d0, n - 1);
      XorCommon(Reduced(c, c0, n - 1), Reduced(d, d0, n - 1), Generator(n - 1));
    }
  }

  lemma StepLinear(c: nat, d: nat, v: nat, w: nat)
    ensures Step(Xor(c, d), Xor(v, w)) == Xor(Step(c, v), Step(d, w))
  {
    XorTop(c, d);
    XorRegroup(Moved(c), Moved(d), v, w);
    ReducedLinear(Xor(Moved(c), v), Xor(Moved(d), w), Top(c), Top(d), 5);
  }

  function Difference(vs: seq<nat>, ws: seq<nat>): (r: seq<nat>)
    requires |vs| == |ws|
    ensures |r| == |vs| && forall i :: 0 <= i < |r| ==> r[i] == Xor(vs[i], ws[i])
  {
    seq(|vs|, i requires 0 <= i < |vs| => Xor(vs[i], ws[i]))
  }

  lemma {:induction false} FedLinear(c: nat, d: nat, vs: seq<nat>, ws: seq<nat>)
    requires |vs| == |ws|
    ensures Fed(Xor(c, d), Difference(vs, ws)) == Xor(Fed(c, vs), Fed(d, ws))
  {
    if vs != [] {
      var n := |vs| - 1;
      FedLinear(c, d, vs[..n], ws[..n]);
      assert Difference(vs, ws)[..n] == Difference(vs[..n], ws[..n]);
      StepLinear(Fed(c, vs[..n]), Fed(d, ws[..n]), vs[n], ws[n]);
    }
  }

  lemma {:induction false} FedConcat(c: nat, vs: seq<nat>, ws: seq<nat>)
    ensures Fed(c, vs + ws) == Fed(Fed(c, vs), ws)
  {
    if ws == [] {
      assert vs + ws == vs;
    } else {
      FedConcat(c, vs, ws[..|ws| - 1]);
      assert (vs + ws)[..|vs + ws| - 1] == vs + ws[..|ws| - 1];
    }
  }

  lemma {:induction false} ReducedFits(c: nat, c0: nat, n: nat)
    requires c < 0x40000000
    ensures Reduced(c, c0, n) < 0x40000000
  {
    if n > 0 {
      ReducedFits(c, c0, n - 1);
      XorFits(Reduced(c, c0, n - 1), Generator(n - 1));
    }
  }

  /** The register never outgrows 30 bits. */
  lemma FedFits(c: nat, vs: seq<nat>)
    requires c < 0x40000000 && forall i :: 0 <= i < |vs| ==> vs[i] < 0x40000000
    ensures Fed(c, vs) < 0x40000000
  {
    if vs != [] {
      var before, v := Fed(c, vs[..|vs| - 1]), vs[|vs| - 1];
      XorFits(Moved(before), v);
      ReducedFits(Xor(Moved(before), v), Top(before), 5);
    }
  }

  // ----- errors ------------------------------------------------------------------------------------

  predicate AllZero(vs: seq<nat>) { forall i :: 0 <= i < |vs| ==> vs[i] == 0 }
  predicate AllSmall(vs: seq<nat>) { forall i :: 0 <= i < |vs| ==> vs[i] < 32 }

  /** Does the reduction by c0 flip bit k? */
  function Flips(c0: nat, n: nat, k: nat): bool
    decreases n, c0
  {
    n > 0 && (Flips(c0, n - 1, k) != (Bit(c0, n - 1) && Bit(Generator(n - 1), k)))
  }

  lemma {:induction false} ReducedBit(c: nat, c0: nat, n: nat, k: nat)
    ensures Bit(Reduced(c, c0, n), k) == (Bit(c, k) != Flips(c0, n, k))
  {
    if n > 0 {
      ReducedBit(c, c0, n - 1, k);
      XorBit(Reduced(c, c0, n - 1), Generator(n - 1), k);
    }
  }

  lemma FlipsFive(c0: nat, k: nat)
    ensures Flips(c0, 5, k) ==
      (((((Bit(c0, 0) && Bit(0x3b6a57b2, k)) != (Bit(c0, 1) && Bit(0x26508e6d, k))) != (Bit(c0, 2) && Bit(0x1ea119fa, k)))
        != (Bit(c0, 3) && Bit(0x3d4233dd, k))) != (Bit(c0, 4) && Bit(0x2a1462b3, k)))
  {
    assert Flips(c0, 1, k) == (Bit(c0, 0) && Bit(0x3b6a57b2, k));
    assert Flips(c0, 2, k) == (Flips(c0, 1, k) != (Bit(c0, 1) && Bit(0x26508e6d, k)));
    assert Flips(c0, 3, k) == (Flips(c0, 2, k) != (Bit(c0, 2) && Bit(0x1ea119fa, k)));
    assert Flips(c0, 4, k) == (Flips(c0, 3, k) != (Bit(c0, 3) && Bit(0x3d4233dd, k)));
  }

  /** The last groups of the five constants are independent: a reduction that leaves the last
      five bits alone adds nothing at all. */
  lemma Independent(c0: nat)
    requires c0 < 32 && forall k: nat :: k < 5 ==> !Flips(c0, 5, k)
    ensures c0 == 0
  {
    FlipsFive(c0, 0);
    FlipsFive(c0, 1);
    FlipsFive(c0, 2);
    FlipsFive(c0, 3);
    FlipsFive(c0, 4);
    assert !Flips(c0, 5, 0) && !Flips(c0, 5, 1) && !Flips(c0, 5, 2) && !Flips(c0, 5, 3) && !Flips(c0, 5, 4);
    NoBits(c0);
  }

  lemma NoBits(c: nat)
    requires c < 32 && !Bit(c, 0) && !Bit(c, 1) && !Bit(c, 2) && !Bit(c, 3) && !Bit(c, 4)
    ensures c == 0
  {
    assert !Bit(c / 2, 0) && !Bit(c / 2 / 2, 0) && !Bit(c / 2 / 2 / 2, 0) && !Bit(c / 2 / 2 / 2 / 2, 0);
  }

  lemma {:induction false} LowBitsClear(m: nat, k: nat, j: nat)
    requires j < k
    ensures !Bit(Shl(m, k), j)
  {
    if j > 0 {
      LowBitsClear(m, k - 1, j - 1);
    }
  }

  lemma {:induction false} NoBitOfZero(k: nat)
    ensures !Bit(0, k)
  {
    if k > 0 {
      NoBitOfZero(k - 1);
    }
  }

  lemma {:induction false} ReducedByZero(c: nat, n: nat)
    ensures Reduced(c, 0, n) == c
  {
    if n > 0 {
      ReducedByZero(c, n - 1);
      NoBitOfZero(n - 1);
    }
  }

  /** Reading a zero symbol loses nothing. */
  lemma StepInjective(c: nat)
    requires c < 0x40000000 && Step(c, 0) == 0
    ensures c == 0
  {
    XorZero(Moved(c));
    forall k: nat | k < 5 ensures !Flips(Top(c), 5, k) {
      ReducedBit(Moved(c), Top(c), 5, k);
      NoBitOfZero(k);
      ShlGroup(c % 0x2000000);
      LowBitsClear(c % 0x2000000, 5, k);
    }
    Independent(Top(c));
    ReducedByZero(Moved(c), 5);
  }

  lemma {:induction false} NonZeroStays(c: nat, zeros: seq<nat>)
    requires 0 < c < 0x40000000 && AllZero(zeros)
    ensures 0 < Fed(c, zeros)
  {
    if zeros != [] {
      var n := |zeros| - 1;
      NonZeroStays(c, zeros[..n]);
      FedFits(c, zeros[..n]);
      if Step(Fed(c, zeros[..n]), 0) == 0 {
        StepInjective(Fed(c, zeros[..n]));
      }
    }
  }

  lemma {:induction false} ZeroStays(zeros: seq<nat>)
    requires AllZero(zeros)
    ensures Fed(0, zeros) == 0
  {
    if zeros != [] {
      ZeroStays(zeros[..|zeros| - 1]);
      XorZero(0);
      ReducedByZero(0, 5);
    }
  }

  /** Symbols as the digits of one number. */
  function Packed(vs: seq<nat>): nat {
    if vs == [] then 0 else 32 * Packed(vs[..|vs| - 1]) + vs[|vs| - 1]
  }

  function Room(k: nat): nat { if k == 0 then 1 else 32 * Room(k - 1) }

  lemma {:induction false} PackedBelow(vs: seq<nat>)
    requires AllSmall(vs)
    ensures Packed(vs) < Room(|vs|)
    ensures Packed(vs) == 0 ==> AllZero(vs)
  {
    if vs != [] {
      PackedBelow(vs[..|vs| - 1]);
      assert vs == vs[..|vs| - 1] + [vs[|vs| - 1]];
    }
  }

  lemma StepAppends(c: nat, v: nat)
    requires c < 0x2000000 && v < 32
    ensures Step(c, v) == 32 * c + v
  {
    assert Top(c) == 0 && Moved(c) == 32 * c;
    XorAppends(c, v);
    ReducedByZero(32 * c + v, 5);
  }

  lemma XorAppends(c: nat, v: nat)
    requires v < 32
    ensures Xor(32 * c, v) == 32 * c + v
  {
    XorLast(c, 0, 0, v);
    XorZero(c);
    XorZero(v);
  }

  lemma RoomBelow(k: nat)
    requires k < 6
    ensures Room(k) <= 0x2000000
  {
    assert Room(1) == 32 && Room(2) == 0x400;
    assert Room(3) == 0x8000 && Room(4) == 0x100000;
  }

  /** Up to six symbols from a clear register are simply packed: nothing is reduced. */
  lemma {:induction false} SixPacked(vs: seq<nat>)
    requires |vs| <= 6 && AllSmall(vs)
    ensures Fed(0, vs) == Packed(vs)
  {
    if vs != [] {
      var n := |vs| - 1;
      SixPacked(vs[..n]);
      PackedBelow(vs[..n]);
      RoomBelow(n);
      StepAppends(Fed(0, vs[..n]), vs[n]);
    }
  }

  /** An error confined to six consecutive symbols leaves a non-zero register. */
  lemma BurstShows(before: seq<nat>, burst: seq<nat>, after: seq<nat>)
    requires AllZero(before) && AllZero(after)
    requires |burst| <= 6 && AllSmall(burst) && !AllZero(burst)
    ensures Fed(0, before + burst + after) != 0
  {
    ZeroStays(before);
    FedConcat(0, before, burst);
    SixPacked(burst);
    PackedBelow(burst);
    FedFits(0, burst);
    FedConcat(0, before + burst, after);
    NonZeroStays(Fed(0, burst), after);
  }

  lemma Split(s: seq<nat>, k: nat, l: nat)
    requires k <= l <= |s|
    ensures s == s[..k] + s[k..l] + s[l..]
  {
  }

  /** v and w differ at most in the six symbols from k on. */
  predicate DifferWithinSix(v: seq<nat>, w: seq<nat>, k: nat)
    requires |v| == |w|
  {
    forall i :: 0 <= i < |v| && (i < k || k + 6 <= i) ==> v[i] == w[i]
  }

  lemma DifferenceOf(v: seq<nat>, w: seq<nat>)
    requires |v| == |w| && AllSmall(v) && AllSmall(w)
    ensures AllSmall(Difference(v, w))
    ensures forall i :: 0 <= i < |v| ==> (Difference(v, w)[i] == 0 <==> v[i] == w[i])
  {
    forall i | 0 <= i < |v| ensures Xor(v[i], w[i]) < 32 && (Xor(v[i], w[i]) == 0 <==> v[i] == w[i]) {
      XorLast(0, v[i], 0, w[i]);
      XorApart(v[i], w[i]);
    }
  }

  lemma BurstInside(e: seq<nat>, k: nat, i: nat)
    requires AllSmall(e) && i < |e| && e[i] != 0
    requires forall j :: 0 <= j < |e| && (j < k || k + 6 <= j) ==> e[j] == 0
    ensures Fed(0, e) != 0
  {
    var l := if k + 6 <= |e| then k + 6 else |e|;
    Split(e, k, l);
    assert e[k..l][i - k] == e[i];
    BurstShows(e[..k], e[k..l], e[l..]);
  }

  /** Two different data parts that differ only within six consecutive symbols leave the register
      different, whatever was read before them. */
  lemma BurstDetected(c: nat, v: seq<nat>, w: seq<nat>, k: nat)
    requires |v| == |w| && AllSmall(v) && AllSmall(w) && v != w && DifferWithinSix(v, w, k)
    ensures Fed(c, v) != Fed(c, w)
  {
    DifferenceOf(v, w);
    var i :| 0 <= i < |v| && v[i] != w[i];
    BurstInside(Difference(v, w), k, i);
    FedLinear(c, c, v, w);
    XorZero(c);
    XorApart(Fed(c, v), Fed(c, w));
  }

  // ----- the register as a polynomial over GF(32) ---------------------------------------------------

  /** Multiplication by a, the root of a^5 + a^3 + 1. */
  function TimesA(x: nat): nat { if x < 16 then 2 * x else Xor(2 * (x - 16), 9) }

  /** a^n x. */
  function Raised(x: nat, n: nat): nat
    decreases n, x
  {
    if n == 0 then x else TimesA(Raised(x, n - 1))
  }

  /** The product in GF(32) of x and the n low bits of c. */
  function Times(c: nat, x: nat, n: nat): nat
    decreases n, c
  {
    if n == 0 then 0
    else if Bit(c, n - 1) then Xor(Times(c, x, n - 1), Raised(x, n - 1))
    else Times(c, x, n - 1)
  }

  /** g(x) without its leading term: 29x^5 + 22x^4 + 20x^3 + 21x^2 + 29x + 18. */
  function Lower(): seq<nat> { [29, 22, 20, 21, 29, 18] }

  function Products(c0: nat, n: nat): seq<nat> {
    seq(6, i requires 0 <= i < 6 => Times(c0, Lower()[i], n))
  }

  function Multiples(n: nat): seq<nat> {
    seq(6, i requires 0 <= i < 6 => Raised(Lower()[i], n))
  }

  /** p(x) x + v reduced by g(x): coefficients move up, and the leading one times g is subtracted. */
  function Remainder(p: seq<nat>, v: nat): seq<nat>
    requires |p| == 6
  {
    Difference(p[1..] + [v], Products(p[0], 5))
  }

  lemma {:induction false} PackedXor(vs: seq<nat>, ws: seq<nat>)
    requires |vs| == |ws| && AllSmall(vs) && AllSmall(ws)
    ensures Xor(Packed(vs), Packed(ws)) == Packed(Difference(vs, ws)) && AllSmall(Difference(vs, ws))
  {
    DifferenceOf(vs, ws);
    if vs == [] {
      XorZero(0);
    } else {
      var n := |vs| - 1;
      PackedXor(vs[..n], ws[..n]);
      XorLast(Packed(vs[..n]), vs[n], Packed(ws[..n]), ws[n]);
      assert Difference(vs, ws)[..n] == Difference(vs[..n], ws[..n]);
    }
  }

  lemma PackedSix(p: seq<nat>)
    requires |p| == 6
    ensures Packed(p) == 0x2000000 * p[0] + 0x100000 * p[1] + 0x8000 * p[2] + 0x400 * p[3] + 32 * p[4] + p[5]
  {
    assert p[..5][..4] == p[..4] && p[..4][..3] == p[..3] && p[..3][..2] == p[..2] && p[..2][..1] == p[..1];
    assert Packed(p[..1]) == p[0];
    assert Packed(p[..2]) == 32 * p[0] + p[1];
    assert Packed(p[..3]) == 32 * Packed(p[..2]) + p[2];
    assert Packed(p[..4]) == 32 * Packed(p[..3]) + p[3];
    assert Packed(p[..5]) == 32 * Packed(p[..4]) + p[4];
  }

  lemma RaisedSmall(x: nat, n: nat)
    requires x < 32
    ensures Raised(x, n) < 32
  {
    if n > 0 {
      RaisedSmall(x, n - 1);
      var y := Raised(x, n - 1);
      if y >= 16 {
        XorLast(0, 2 * (y - 16), 0, 9);
      }
    }
  }

  lemma RaisedFour(x: nat, x1: nat, x2: nat, x3: nat, x4: nat)
    requires TimesA(x) == x1 && TimesA(x1) == x2 && TimesA(x2) == x3 && TimesA(x3) == x4
    ensures Raised(x, 0) == x && Raised(x, 1) == x1 && Raised(x, 2) == x2 && Raised(x, 3) == x3 && Raised(x, 4) == x4
  {
    assert Raised(x, 1) == x1;
    assert Raised(x, 2) == x2;
    assert Raised(x, 3) == x3;
  }

  lemma PackedMultiples(n: nat)
    ensures Packed(Multiples(n)) == 0x2000000 * Raised(29, n) + 0x100000 * Raised(22, n) + 0x8000 * Raised(20, n)
      + 0x400 * Raised(21, n) + 32 * Raised(29, n) + Raised(18, n)
    ensures AllSmall(Multiples(n))
  {
    PackedSix(Multiples(n));
    forall i | 0 <= i < 6 ensures Multiples(n)[i] < 32 {
      RaisedSmall(Lower()[i], n);
    }
  }

  lemma LeftColumns()
    ensures TimesA(29) == 19 && TimesA(19) == 15 && TimesA(30) == 21 && TimesA(22) == 5
  {
  }

  lemma RightColumns()
    ensures TimesA(20) == 1 && TimesA(21) == 3 && TimesA(18) == 13 && TimesA(26) == 29
  {
  }

  /** The five constants of the source are the products a^n times the lower part of g. */
  lemma GeneratorIs(n: nat)
    requires n < 5
    ensures Generator(n) == Packed(Multiples(n)) && AllSmall(Multiples(n))
  {
    PackedMultiples(n);
    LeftColumns();
    RightColumns();
    RaisedFour(29, 19, 15, 30, 21);
    RaisedFour(22, 5, 10, 20, 1);
    RaisedFour(20, 1, 2, 4, 8);
    RaisedFour(21, 3, 6, 12, 24);
    RaisedFour(18, 13, 26, 29, 19);
  }

  lemma {:induction false} ReducedIs(p: seq<nat>, c0: nat, n: nat)
    requires |p| == 6 && AllSmall(p) && n <= 5
    ensures AllSmall(Products(c0, n))
    ensures Reduced(Packed(p), c0, n) == Packed(Difference(p, Products(c0, n)))
  {
    if n == 0 {
      DifferenceZero(p, Products(c0, 0));
    } else {
      ReducedIs(p, c0, n - 1);
      var q := Products(c0, n - 1);
      if Bit(c0, n - 1) {
        GeneratorIs(n - 1);
        DifferenceOf(p, q);
        PackedXor(Difference(p, q), Multiples(n - 1));
        DifferenceOf(q, Multiples(n - 1));
        assert Products(c0, n) == Difference(q, Multiples(n - 1));
        DifferenceTwice(p, q, Multiples(n - 1));
      } else {
        assert Products(c0, n) == q;
      }
    }
  }

  lemma DifferenceZero(p: seq<nat>, zeros: seq<nat>)
    requires |p| == |zeros| && AllZero(zeros)
    ensures Difference(p, zeros) == p
  {
    forall i | 0 <= i < |p| ensures Xor(p[i], zeros[i]) == p[i] {
      XorZero(p[i]);
    }
  }

  lemma DifferenceTwice(p: seq<nat>, q: seq<nat>, m: seq<nat>)
    requires |p| == |q| == |m|
    ensures Difference(Difference(p, q), m) == Difference(p, Difference(q, m))
  {
    forall i | 0 <= i < |p| ensures Xor(Xor(p[i], q[i]), m[i]) == Xor(p[i], Xor(q[i], m[i])) {
      XorAssociates(p[i], q[i], m[i]);
    }
  }

  lemma PackedMoves(p: seq<nat>, v: nat)
    requires |p| == 6 && AllSmall(p) && v < 32
    ensures Top(Packed(p)) == p[0] && Moved(Packed(p)) + v == Packed(p[1..] + [v])
  {
    PackedSix(p);
    PackedSix(p[1..] + [v]);
  }

  lemma XorMoved(c: nat, v: nat, q: seq<nat>)
    requires v < 32 && Moved(c) + v == Packed(q)
    ensures Xor(Moved(c), v) == Packed(q)
  {
    XorAppends(c % 0x2000000, v);
  }

  /** A step of PolyMod is exactly one step of polynomial division by g over GF(32). */
  lemma StepIsRemainder(p: seq<nat>, v: nat)
    requires |p| == 6 && AllSmall(p) && v < 32
    ensures Step(Packed(p), v) == Packed(Remainder(p, v))
  {
    PackedMoves(p, v);
    XorMoved(Packed(p), v, p[1..] + [v]);
    ReducedIs(p[1..] + [v], p[0], 5);
  }
}
