/** The Bech32 checksum covers the prefix, and an encoding from BIP 173. */
module Bech32Prefix {
  import opened Bits
  import opened Bech32Checksum
  import opened Bech32
  import opened Bech32Errors

  // ----- errors in the prefix -------------------------------------------------------------------------

  /** Every character is a byte. */
  predicate Bytes(s: string) { forall i :: 0 <= i < |s| ==> s[i] as int < 256 }

  lemma ExpandedSmall(hrp: string)
    requires Bytes(hrp)
    ensures AllSmall(Expanded(hrp)) && |Expanded(hrp)| == 2 * |hrp| + 1
  {
    var n := |hrp|;
    forall i | 0 <= i < 2 * n + 1 ensures Expanded(hrp)[i] < 32 {
    }
  }

  /** A changed character changes one or both of its two symbols, and no other. */
  lemma ExpandedPlaces(hrp: string, other: string)
    requires |hrp| == |other|
    ensures var n := |hrp|;
      var v, w := Expanded(hrp), Expanded(other);
      && |v| == |w| == 2 * n + 1
      && (forall i :: 0 <= i < n ==> (hrp[i] == other[i] <==> v[i] == w[i] && v[n + 1 + i] == w[n + 1 + i]))
      && v[n] == w[n]
  {
    var n := |hrp|;
    var v, w := Expanded(hrp), Expanded(other);
    forall i | 0 <= i < n ensures hrp[i] == other[i] <==> v[i] == w[i] && v[n + 1 + i] == w[n + 1 + i] {
      assert v[i] == hrp[i] as int / 32 && v[n + 1 + i] == hrp[i] as int % 32;
      assert w[i] == other[i] as int / 32 && w[n + 1 + i] == other[i] as int % 32;
      if v[i] == w[i] && v[n + 1 + i] == w[n + 1 + i] {
        assert hrp[i] as int == 32 * v[i] + v[n + 1 + i] && other[i] as int == 32 * w[i] + w[n + 1 + i];
      }
    }
  }

  /** One changed character of the prefix. */
  lemma OneCharacterDetected(hrp: string, other: string, i: nat, values: seq<nat>)
    requires |hrp| == |other| <= 1021 && Bytes(hrp) && Bytes(other) && AllSmall(values)
    requires i < |hrp| && hrp[i] != other[i] && forall j :: 0 <= j < |hrp| && j != i ==> hrp[j] == other[j]
    ensures !(Verifies(hrp, values) && Verifies(other, values))
  {
    var n := |hrp|;
    var v, w := Expanded(hrp) + values, Expanded(other) + values;
    ExpandedSmall(hrp);
    ExpandedSmall(other);
    ExpandedPlaces(hrp, other);
    var d := Places(v, w);
    forall k | k in d ensures k == i || k == n + 1 + i {
      if k < n { } else if n < k < 2 * n + 1 { assert hrp[k - n - 1] != other[k - n - 1]; }
    }
    assert i in d || n + 1 + i in d;
    AtMostTwo(d, i, n + 1 + i);
    ThreeErrorsDetected(1, v, w, i);
  }

  lemma AtMostTwo(d: set<nat>, a: nat, b: nat)
    requires (a in d || b in d) && forall k :: k in d ==> k == a || k == b
    ensures 1 <= |d| <= 2
  {
    assert d == {a} || d == {b} || d == {a, b};
  }

  /** Up to three wrong symbols, a wrong character of the prefix counting for two. */
  lemma MixedErrorsDetected(hrp: string, other: string, v: seq<nat>, w: seq<nat>)
    requires |hrp| == |other| && |v| == |w| && 2 * |hrp| + 1 + |v| <= 1023
    requires Bytes(hrp) && Bytes(other) && AllSmall(v) && AllSmall(w)
    requires 1 <= 2 * |Places(hrp, other)| + |Places(v, w)| <= 3
    ensures !(Verifies(hrp, v) && Verifies(other, w))
  {
    if Places(hrp, other) == {} {
      assert forall j :: 0 <= j < |hrp| && hrp[j] != other[j] ==> j in Places(hrp, other);
      assert hrp == other;
      NotBothVerify(hrp, v, w, 0);
    } else {
      OneAndOne(hrp, other, v, w);
    }
  }

  lemma OnlyMember(d: set<nat>) returns (i: nat)
    requires |d| == 1
    ensures d == {i}
  {
    i :| i in d;
    assert |d - {i}| == 0;
    assert d == {i} + (d - {i});
  }

  lemma OneAndOne(hrp: string, other: string, v: seq<nat>, w: seq<nat>)
    requires |hrp| == |other| && |v| == |w| && 2 * |hrp| + 1 + |v| <= 1023
    requires Bytes(hrp) && Bytes(other) && AllSmall(v) && AllSmall(w)
    requires |Places(hrp, other)| == 1 && |Places(v, w)| <= 1
    ensures !(Verifies(hrp, v) && Verifies(other, w))
  {
    var i := OnlyMember(Places(hrp, other));
    var m := 2 * |hrp| + 1;
    var k: nat := 0;
    if |Places(v, w)| == 1 {
      k := OnlyMember(Places(v, w));
    }
    ExpandedSmall(hrp);
    ExpandedSmall(other);
    PlacesOf(hrp, other, v, w, i, k);
    AtMostThree(Places(Expanded(hrp) + v, Expanded(other) + w), i, |hrp| + 1 + i, m + k);
    ThreeErrorsDetected(1, Expanded(hrp) + v, Expanded(other) + w, 0);
  }

  lemma PlacesOf(hrp: string, other: string, v: seq<nat>, w: seq<nat>, i: nat, k: nat)
    requires |hrp| == |other| && |v| == |w| && Places(hrp, other) == {i} && Places(v, w) <= {k}
    ensures |Expanded(hrp) + v| == |Expanded(other) + w|
    ensures Places(Expanded(hrp) + v, Expanded(other) + w) != {}
    ensures Places(Expanded(hrp) + v, Expanded(other) + w) <= {i, |hrp| + 1 + i, 2 * |hrp| + 1 + k}
  {
    ExpandedPlaces(hrp, other);
    var n, m := |hrp|, 2 * |hrp| + 1;
    var x, y := Expanded(hrp) + v, Expanded(other) + w;
    forall j: nat | j < |x| && x[j] != y[j] ensures j == i || j == n + 1 + i || j == m + k {
      if j >= m {
        assert x[j] == v[j - m] && y[j] == w[j - m];
        assert j - m in Places(v, w);
      } else if j < n {
        assert j in Places(hrp, other);
      } else if j > n {
        assert j - n - 1 in Places(hrp, other);
      }
    }
    assert i in Places(hrp, other);
    assert i in Places(x, y) || n + 1 + i in Places(x, y);
  }

  lemma AtMostThree(d: set<nat>, a: nat, b: nat, c: nat)
    requires d != {} && d <= {a, b, c}
    ensures 1 <= |d| <= 3
  {
    var all := {a, b, c};
    assert all == d + (all - d);
    assert |all| <= 3;
  }

  // ----- exclusive or on symbols --------------------------------------------------------------------------

  lemma Halves(x: bv5)
    ensures (x as nat) / 2 == (x >> 1) as nat && (x as nat) % 2 == if x & 1 == 0 then 0 else 1
  {
  }

  lemma HalvesOfXor(x: bv5, y: bv5)
    ensures (x ^ y) >> 1 == (x >> 1) ^ (y >> 1) && ((x ^ y) & 1 == 0 <==> x & 1 == y & 1)
    ensures (x & 1 == 0 || x & 1 == 1) && (y & 1 == 0 || y & 1 == 1)
  {
  }

  lemma JoinedXor(x: bv5, y: bv5)
    ensures (x ^ y) as nat == 2 * (((x >> 1) ^ (y >> 1)) as nat) + Differ(x as nat, y as nat)
  {
    Halves(x);
    Halves(y);
    Halves(x ^ y);
    HalvesOfXor(x, y);
  }

  lemma Half(x: bv5, a: nat)
    requires a == x as nat
    ensures a / 2 == (x >> 1) as nat && (a == 0 ==> x == 0)
  {
    Halves(x);
  }

  /** On symbols the recursive definition is the operator of the machine. */
  lemma {:induction false} XorIs(x: bv5, y: bv5, a: nat, b: nat, n: nat)
    requires a == x as nat && b == y as nat && a + b <= n
    ensures Xor(a, b) == (x ^ y) as nat
    decreases n
  {
    Half(x, a);
    Half(y, b);
    if n > 0 {
      XorIs(x >> 1, y >> 1, a / 2, b / 2, n - 1);
      JoinedXor(x, y);
      XorHalves(a, b);
    }
  }

  function Nums(p: seq<bv5>): (r: seq<nat>)
    ensures |r| == |p| && forall i :: 0 <= i < |r| ==> r[i] == p[i] as nat
  {
    seq(|p|, i requires 0 <= i < |p| => p[i] as nat)
  }

  predicate IsXor(p: seq<bv5>, q: seq<bv5>, r: seq<bv5>) {
    |p| == |q| == |r| == 6 && forall i :: 0 <= i < 6 ==> r[i] == p[i] ^ q[i]
  }

  lemma PackedSum(p: seq<bv5>, q: seq<bv5>, r: seq<bv5>)
    requires IsXor(p, q, r)
    ensures Xor(Packed(Nums(p)), Packed(Nums(q))) == Packed(Nums(r))
  {
    PackedXor(Nums(p), Nums(q));
    forall i | 0 <= i < 6 ensures Difference(Nums(p), Nums(q))[i] == Nums(r)[i] {
      XorIs(p[i], q[i], p[i] as nat, q[i] as nat, p[i] as nat + q[i] as nat);
    }
    assert Difference(Nums(p), Nums(q)) == Nums(r);
  }

  // ----- an encoding from BIP 173 ------------------------------------------------------------------------

  /** The groups of the five constants of the source. */
  function Groups5(n: nat): (g: seq<bv5>)
    ensures |g| == 6
  {
    if n == 0 then [29, 22, 20, 21, 29, 18]
    else if n == 1 then [19, 5, 1, 3, 19, 13]
    else if n == 2 then [15, 10, 2, 6, 15, 26]
    else if n == 3 then [30, 20, 4, 12, 30, 29]
    else [21, 1, 8, 24, 21, 19]
  }

  lemma GeneratorGroups(n: nat)
    ensures Generator(n) == Packed(Nums(Groups5(n)))
  {
    PackedSix(Nums(Groups5(n)));
  }

  /** r is p, with the n-th constant added if b holds. */
  predicate Adds(b: bool, p: seq<bv5>, n: nat, r: seq<bv5>) {
    if b then IsXor(p, Groups5(n), r) else r == p
  }

  lemma AddsPacked(c: nat, c0: nat, n: nat, p: seq<bv5>, r: seq<bv5>)
    requires Reduced(c, c0, n) == Packed(Nums(p)) && Adds(Bit(c0, n), p, n, r)
    ensures Reduced(c, c0, n + 1) == Packed(Nums(r))
  {
    if Bit(c0, n) {
      GeneratorGroups(n);
      PackedSum(p, Groups5(n), r);
    }
  }

  /** One step of the register on a zero, group by group: r0 are the groups moved up. */
  lemma StepBy(p: seq<bv5>, c0: nat, r0: seq<bv5>, r1: seq<bv5>, r2: seq<bv5>, r3: seq<bv5>, r4: seq<bv5>, r5: seq<bv5>)
    requires |p| == 6 && c0 == p[0] as nat && r0 == p[1..] + [0]
    requires Adds(Bit(c0, 0), r0, 0, r1) && Adds(Bit(c0, 1), r1, 1, r2) && Adds(Bit(c0, 2), r2, 2, r3)
    requires Adds(Bit(c0, 3), r3, 3, r4) && Adds(Bit(c0, 4), r4, 4, r5)
    ensures Step(Packed(Nums(p)), 0) == Packed(Nums(r5))
  {
    assert Nums(p)[1..] + [0] == Nums(r0);
    PackedMoves(Nums(p), 0);
    XorMoved(Packed(Nums(p)), 0, Nums(r0));
    var c := Xor(Moved(Packed(Nums(p))), 0);
    AddsPacked(c, c0, 0, r0, r1);
    AddsPacked(c, c0, 1, r1, r2);
    AddsPacked(c, c0, 2, r2, r3);
    AddsPacked(c, c0, 3, r3, r4);
    AddsPacked(c, c0, 4, r4, r5);
  }

  lemma BitsOf(x: nat, b0: bool, b1: bool, b2: bool, b3: bool, b4: bool)
    requires x == One(b0) + 2 * One(b1) + 4 * One(b2) + 8 * One(b3) + 16 * One(b4)
    ensures Bit(x, 0) == b0 && Bit(x, 1) == b1 && Bit(x, 2) == b2 && Bit(x, 3) == b3 && Bit(x, 4) == b4
  {
    var x1, x2, x3 := One(b1) + 2 * One(b2) + 4 * One(b3) + 8 * One(b4), One(b2) + 2 * One(b3) + 4 * One(b4), One(b3) + 2 * One(b4);
    assert x / 2 == x1 && x1 / 2 == x2 && x2 / 2 == x3 && x3 / 2 == One(b4);
    assert Bit(x, 2) == Bit(x1, 1) == Bit(x2, 0);
    assert Bit(x, 3) == Bit(x1, 2) == Bit(x2, 1) == Bit(x3, 0);
    assert Bit(x, 4) == Bit(x1, 3) == Bit(x2, 2) == Bit(x3, 1) == Bit(One(b4), 0);
  }

  function One(b: bool): nat { if b then 1 else 0 }

  lemma StepOne(p: seq<bv5>, r: seq<bv5>)
    requires p == [1, 3, 0, 1, 0, 0] && r == [30, 22, 21, 21, 29, 18]
    ensures Step(Packed(Nums(p)), 0) == Packed(Nums(r))
  {
    BitsOf(1, true, false, false, false, false);
    var r0: seq<bv5> := [3, 0, 1, 0, 0, 0];
    StepBy(p, 1, r0, r, r, r, r, r);
  }

  lemma StepTwoStarts(r0: seq<bv5>, r2: seq<bv5>, r3: seq<bv5>)
    requires r0 == [22, 21, 21, 29, 18, 0] && r2 == [5, 16, 20, 30, 1, 13] && r3 == [10, 26, 22, 24, 14, 23]
    ensures Adds(true, r0, 1, r2) && Adds(true, r2, 2, r3)
  {
  }

  lemma StepTwoEnds(r3: seq<bv5>, r4: seq<bv5>, r: seq<bv5>)
    requires r3 == [10, 26, 22, 24, 14, 23] && r4 == [20, 14, 18, 20, 16, 10] && r == [1, 15, 26, 12, 5, 25]
    ensures Adds(true, r3, 3, r4) && Adds(true, r4, 4, r)
  {
  }

  lemma StepTwo(p: seq<bv5>, r: seq<bv5>)
    requires p == [30, 22, 21, 21, 29, 18] && r == [1, 15, 26, 12, 5, 25]
    ensures Step(Packed(Nums(p)), 0) == Packed(Nums(r))
  {
    BitsOf(30, false, true, true, true, true);
    var r0: seq<bv5> := [22, 21, 21, 29, 18, 0];
    var r2: seq<bv5> := [5, 16, 20, 30, 1, 13];
    var r3: seq<bv5> := [10, 26, 22, 24, 14, 23];
    var r4: seq<bv5> := [20, 14, 18, 20, 16, 10];
    StepTwoStarts(r0, r2, r3);
    StepTwoEnds(r3, r4, r);
    StepBy(p, 30, r0, r0, r2, r3, r4, r);
  }

  lemma StepThree(p: seq<bv5>, r: seq<bv5>)
    requires p == [1, 15, 26, 12, 5, 25] && r == [18, 12, 24, 16, 4, 18]
    ensures Step(Packed(Nums(p)), 0) == Packed(Nums(r))
  {
    BitsOf(1, true, false, false, false, false);
    var r0: seq<bv5> := [15, 26, 12, 5, 25, 0];
    StepBy(p, 1, r0, r, r, r, r, r);
  }

  lemma StepFour(p: seq<bv5>, r: seq<bv5>)
    requires p == [18, 12, 24, 16, 4, 18] && r == [10, 28, 25, 31, 20, 30]
    ensures Step(Packed(Nums(p)), 0) == Packed(Nums(r))
  {
    BitsOf(18, false, true, false, false, true);
    var r0: seq<bv5> := [12, 24, 16, 4, 18, 0];
    var r2: seq<bv5> := [31, 29, 17, 7, 1, 13];
    StepBy(p, 18, r0, r0, r2, r2, r2, r);
  }

  lemma FedNext(c: nat, vs: seq<nat>, v: nat)
    ensures Fed(c, vs + [v]) == Step(Fed(c, vs), v)
  {
    assert (vs + [v])[..|vs|] == vs;
  }

  lemma AppendNext(vs: seq<nat>, v: nat, ws: seq<nat>, c: nat, d: nat)
    requires Fed(1, vs) == c < 0x2000000 && v < 32 && ws == vs + [v] && d == 32 * c + v
    ensures Fed(1, ws) == d
  {
    FedNext(1, vs, v);
    StepAppends(c, v);
  }

  /** The register after the prefix "a" and two zeros: nothing is reduced yet. */
  lemma AfterPrefix(vs: seq<nat>, p: seq<bv5>)
    requires vs == [3, 0, 1, 0, 0] && p == [1, 3, 0, 1, 0, 0]
    ensures Fed(1, vs) == Packed(Nums(p))
  {
    var v0: seq<nat>, v1: seq<nat>, v2: seq<nat>, v3: seq<nat>, v4: seq<nat> := [], [3], [3, 0], [3, 0, 1], [3, 0, 1, 0];
    AppendNext(v0, 3, v1, 1, 35);
    AppendNext(v1, 0, v2, 35, 1120);
    AppendNext(v2, 1, v3, 1120, 35841);
    AppendNext(v3, 0, v4, 35841, 1146912);
    AppendNext(v4, 0, vs, 1146912, 36701184);
    PackedPrefix(p);
  }

  lemma PackedPrefix(p: seq<bv5>)
    requires p == [1, 3, 0, 1, 0, 0]
    ensures Packed(Nums(p)) == 36701184
  {
    PackedSix(Nums(p));
  }

  lemma AfterZeros(vs: seq<nat>, r: seq<bv5>)
    requires vs == [3, 0, 1, 0, 0] && r == [10, 28, 25, 31, 20, 30]
    ensures Fed(1, vs + [0] + [0] + [0] + [0]) == Packed(Nums(r))
  {
    var p0: seq<bv5>, p1: seq<bv5> := [1, 3, 0, 1, 0, 0], [30, 22, 21, 21, 29, 18];
    var p2: seq<bv5>, p3: seq<bv5> := [1, 15, 26, 12, 5, 25], [18, 12, 24, 16, 4, 18];
    AfterPrefix(vs, p0);
    FedNext(1, vs, 0);
    FedNext(1, vs + [0], 0);
    FedNext(1, vs + [0] + [0], 0);
    FedNext(1, vs + [0] + [0] + [0], 0);
    StepOne(p0, p1);
    StepTwo(p1, p2);
    StepThree(p2, p3);
    StepFour(p3, r);
  }

  lemma XorOne(m: nat)
    ensures Xor(2 * m, 1) == 2 * m + 1
  {
    XorHalves(2 * m, 1);
    XorZero(m);
  }

  /** The register with the last bit set. */
  lemma WithOne(r: seq<bv5>, chk: seq<nat>)
    requires r == [10, 28, 25, 31, 20, 30] && chk == [10, 28, 25, 31, 20, 31]
    ensures Xor(Packed(Nums(r)), 1) == Packed(chk) < 0x40000000
  {
    PackedSix(Nums(r));
    PackedSix(chk);
    XorOne(Packed(Nums(r)) / 2);
  }

  /** The checksum of the prefix "a" alone. */
  lemma ChecksumOfA(chk: seq<nat>)
    requires chk == [10, 28, 25, 31, 20, 31]
    ensures Checksum("a", []) == chk
  {
    var vs: seq<nat>, r: seq<bv5> := [3, 0, 1, 0, 0], [10, 28, 25, 31, 20, 30];
    assert Expanded("a") == [3, 0, 1];
    assert Expanded("a") + [] + Zeros(6) == vs + [0] + [0] + [0] + [0];
    AfterZeros(vs, r);
    WithOne(r, chk);
    RoomSix();
    GroupsPacked(Packed(chk), chk);
  }

  lemma SymbolsOf(chk: seq<nat>)
    requires chk == [10, 28, 25, 31, 20, 31]
    ensures AllSmall(chk) && Symbols(chk) == "2uel5l"
  {
  }

  /** The shortest valid string of BIP 173. */
  lemma ShortestExample()
    ensures Encoded("a", []) == "a12uel5l" && Decoded("a12uel5l") == ("a", [])
  {
    var chk: seq<nat> := [10, 28, 25, 31, 20, 31];
    ChecksumOfA(chk);
    SymbolsOf(chk);
    assert [] + Checksum("a", []) == chk;
    assert "a" + "1" + "2uel5l" == "a12uel5l";
    DecodeEncode("a", []);
  }
}
