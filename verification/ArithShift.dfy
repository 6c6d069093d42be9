/** Shifts, comparison and bit length of base_uint on arrays of limbs. */
module ArithShift {
  import opened Bits
  import opened Limbs
  import opened LimbOps
  import opened ArithUint

  // ----- left shift -----------------------------------------------------------------------------------------

  /** What limb i - 1 leaves for limb i. */
  function FromBelow(a: seq<nat>, s: nat, i: nat): nat
    requires i <= |a| && s < 32
  {
    if i == 0 then 0 else Shr(a[i - 1], 32 - s)
  }

  lemma {:induction false} ShiftUpAt(a: seq<nat>, s: nat, carry: nat, i: nat)
    requires i < |a| && s < 32
    ensures ShiftUp(a, s, carry).0[i] == Shl(a[i], s) % 0x1_0000_0000 + (if i == 0 then carry else FromBelow(a, s, i))
    decreases i
  {
    if i > 0 {
      ShiftUpAt(a[1..], s, Shr(a[0], 32 - s), i - 1);
    }
  }

  lemma FromBelowFits(a: seq<nat>, s: nat, i: nat)
    requires i <= |a| && s < 32 && AreLimbs(a)
    ensures FromBelow(a, s, i) < Shl(1, s)
    ensures s == 0 ==> FromBelow(a, s, i) == 0
  {
    ShlPositive(s);
    if i > 0 {
      LimbShiftParts(a[i - 1], s);
    }
  }

  lemma LimbShiftMod(x: nat, s: nat) returns (y: nat)
    requires x < 0x1_0000_0000 && s < 32
    ensures Shl(x, s) % 0x1_0000_0000 == Shl(y, s)
  {
    y := LimbShift(x, s);
    ShlPositive(s);
  }

  lemma OrUp(x: nat, s: nat, carry: nat, m: nat)
    requires x < 0x1_0000_0000 && s < 32 && carry < Shl(1, s) && m == Shl(x, s) % 0x1_0000_0000
    ensures Or(carry, m) == m + carry
  {
    var y := LimbShiftMod(x, s);
    OrIsSum(s, carry, y);
  }

  /** Limb i shifted in place, joined with what comes from below. */
  function UpAt(a: seq<nat>, s: nat, i: nat): nat
    requires i < |a| && s < 32
  {
    Or(FromBelow(a, s, i), Shl(a[i], s) % 0x1_0000_0000)
  }

  lemma UpAtIs(a: seq<nat>, s: nat, i: nat)
    requires i < |a| && s < 32 && AreLimbs(a)
    ensures UpAt(a, s, i) == ShiftUp(a, s, 0).0[i]
  {
    FromBelowFits(a, s, i);
    OrUp(a[i], s, FromBelow(a, s, i), Shl(a[i], s) % 0x1_0000_0000);
    ShiftUpAt(a, s, 0, i);
  }

  /** Limb j after i rounds of the left shift. */
  ghost function LeftAt(a: seq<nat>, k: nat, s: nat, i: nat, j: nat): nat
    requires s < 32 && i <= |a| && j < |a|
  {
    if j < k || k + i < j then 0
    else if j == k + i then FromBelow(a, s, i)
    else UpAt(a, s, j - k)
  }

  lemma LeftDone(a: seq<nat>, shift: nat, j: nat)
    requires j < |a| && AreLimbs(a)
    ensures LeftAt(a, shift / 32, shift % 32, |a|, j) == ShiftedLeft(a, shift)[j]
  {
    var k, s := shift / 32, shift % 32;
    if k <= j {
      UpAtIs(a, s, j - k);
    }
  }

  /** operator<<= */
  method ShiftLeft(pn: array<nat>, shift: nat)
    requires AreLimbs(pn[..])
    modifies pn
    ensures pn[..] == ShiftedLeft(old(pn[..]), shift)
    ensures AreLimbs(pn[..]) && Wraps(Shl(old(Value(pn[..])), shift), Value(pn[..]), pn.Length)
  {
    ghost var a0 := pn[..];
    var a := CopyOf(pn);
    SetZero(pn);
    LeftLoop(pn, a, shift / 32, shift % 32);
    forall j | 0 <= j < pn.Length ensures pn[j] == ShiftedLeft(a0, shift)[j] {
      LeftDone(a0, shift, j);
    }
    ShiftLeftWraps(a0, shift);
  }

  method LeftLoop(pn: array<nat>, a: array<nat>, k: nat, s: nat)
    requires a != pn && a.Length == pn.Length && s < 32 && AreLimbs(a[..])
    requires forall j :: 0 <= j < pn.Length ==> pn[j] == 0
    modifies pn
    ensures forall j :: 0 <= j < pn.Length ==> pn[j] == LeftAt(a[..], k, s, pn.Length, j)
  {
    ghost var a0 := a[..];
    var i := 0;
    while i < pn.Length
      invariant 0 <= i <= pn.Length
      invariant forall j :: 0 <= j < pn.Length ==> pn[j] == LeftAt(a0, k, s, i, j)
    {
      FromBelowFits(a0, s, i + 1);
      if i + k + 1 < pn.Length && s != 0 {
        OrZero(Shr(a[i], 32 - s));
        pn[i + k + 1] := Or(pn[i + k + 1], Shr(a[i], 32 - s));
      }
      if i + k < pn.Length {
        pn[i + k] := Or(pn[i + k], Shl(a[i], s) % 0x1_0000_0000);
      }
      i := i + 1;
    }
  }

  // ----- right shift ------------------------------------------------------------------------------------------

  /** What limb m takes from the limb above. */
  function FromAbove(a: seq<nat>, s: nat, m: nat): nat
    requires s < 32
  {
    if m + 1 < |a| then Shl(a[m + 1], 32 - s) % 0x1_0000_0000 else 0
  }

  lemma {:induction false} ShiftDownAt(a: seq<nat>, s: nat, m: nat)
    requires m < |a| && s < 32
    ensures ShiftDown(a, s)[m] == Shr(a[m], s) + FromAbove(a, s, m)
    decreases m
  {
    if m > 0 {
      ShiftDownAt(a[1..], s, m - 1);
    }
  }

  /** Limb m shifted in place, joined with what comes from above. */
  function DownAt(a: seq<nat>, s: nat, m: nat): nat
    requires m < |a| && s < 32
  {
    if s == 0 || m + 1 == |a| then Shr(a[m], s) else Or(Shr(a[m], s), Shl(a[m + 1], 32 - s) % 0x1_0000_0000)
  }

  lemma DownAtIs(a: seq<nat>, s: nat, m: nat)
    requires m < |a| && s < 32 && AreLimbs(a)
    ensures DownAt(a, s, m) == ShiftDown(a, s)[m]
  {
    ShiftDownAt(a, s, m);
    if m + 1 < |a| {
      if s == 0 {
        Shl32(a[m + 1]);
      } else {
        ShrBelow(a[m], s);
        OrUp(a[m + 1], 32 - s, Shr(a[m], s), Shl(a[m + 1], 32 - s) % 0x1_0000_0000);
      }
    }
  }

  /** Limb j after i rounds of the right shift. */
  ghost function RightAt(a: seq<nat>, k: nat, s: nat, i: nat, j: nat): nat
    requires s < 32 && i <= |a|
  {
    if i <= j + k then 0
    else if i == j + k + 1 then Shr(a[j + k], s)
    else DownAt(a, s, j + k)
  }

  lemma RightDone(a: seq<nat>, shift: nat, j: nat)
    requires j < |a| && AreLimbs(a)
    ensures RightAt(a, shift / 32, shift % 32, |a|, j) == ShiftedRight(a, shift)[j]
  {
    var k, s := shift / 32, shift % 32;
    if k < |a| {
      DroppedAt(ShiftDown(a, s), k, j);
      RightIs(a, k, s, j);
    }
  }

  lemma RightIs(a: seq<nat>, k: nat, s: nat, j: nat)
    requires j < |a| && AreLimbs(a) && s < 32
    ensures RightAt(a, k, s, |a|, j) == if j + k < |a| then ShiftDown(a, s)[j + k] else 0
  {
    if j + k < |a| {
      DownAtIs(a, s, j + k);
    }
  }

  lemma DroppedAt(t: seq<nat>, k: nat, j: nat)
    requires k <= |t| && j < |t|
    ensures (t[k..] + Zeros(k))[j] == if j + k < |t| then t[j + k] else 0
  {
  }

  /** operator>>= */
  method ShiftRight(pn: array<nat>, shift: nat)
    requires AreLimbs(pn[..])
    modifies pn
    ensures pn[..] == ShiftedRight(old(pn[..]), shift)
    ensures AreLimbs(pn[..]) && Value(pn[..]) == Shr(old(Value(pn[..])), shift)
  {
    ghost var a0 := pn[..];
    var a := CopyOf(pn);
    SetZero(pn);
    RightLoop(pn, a, shift / 32, shift % 32);
    forall j | 0 <= j < pn.Length ensures pn[j] == ShiftedRight(a0, shift)[j] {
      RightDone(a0, shift, j);
    }
    ShiftRightIs(a0, shift);
  }

  method RightLoop(pn: array<nat>, a: array<nat>, k: nat, s: nat)
    requires a != pn && a.Length == pn.Length && s < 32
    requires forall j :: 0 <= j < pn.Length ==> pn[j] == 0
    modifies pn
    ensures forall j :: 0 <= j < pn.Length ==> pn[j] == RightAt(a[..], k, s, pn.Length, j)
  {
    ghost var a0 := a[..];
    var i := 0;
    while i < pn.Length
      invariant 0 <= i <= pn.Length
      invariant forall j :: 0 <= j < pn.Length ==> pn[j] == RightAt(a0, k, s, i, j)
    {
      OrZero(Shr(a[i], s));
      if i - k - 1 >= 0 && s != 0 {
        pn[i - k - 1] := Or(pn[i - k - 1], Shl(a[i], 32 - s) % 0x1_0000_0000);
      }
      if i - k >= 0 {
        pn[i - k] := Or(pn[i - k], Shr(a[i], s));
      }
      i := i + 1;
    }
  }

  // ----- comparison and bit length ---------------------------------------------------------------------------

  method CompareTo(pn: array<nat>, b: array<nat>) returns (r: int)
    requires pn.Length == b.Length && AreLimbs(pn[..]) && AreLimbs(b[..])
    ensures r < 0 <==> Value(pn[..]) < Value(b[..])
    ensures r == 0 <==> pn[..] == b[..]
    ensures r > 0 <==> Value(pn[..]) > Value(b[..])
  {
    var i := pn.Length - 1;
    while i >= 0
      invariant -1 <= i < pn.Length && forall j :: i < j < pn.Length ==> pn[j] == b[j]
    {
      if pn[i] < b[i] {
        TopDifference(pn[..], b[..], i);
        return -1;
      }
      if pn[i] > b[i] {
        TopDifference(b[..], pn[..], i);
        return 1;
      }
      i := i - 1;
    }
    assert pn[..] == b[..];
    return 0;
  }

  lemma TopDifference(a: seq<nat>, b: seq<nat>, i: nat)
    requires AreLimbs(a) && |a| == |b| && i < |a| && a[i] < b[i] && forall j :: i < j < |a| ==> a[j] == b[j]
    ensures Value(a) < Value(b) && a != b
  {
    assert a[i + 1..] == b[i + 1..];
    FirstDifference(a, b, i);
  }

  /** r is the position of the highest bit of v plus one, or zero. */
  ghost predicate IsBitLength(v: nat, r: nat) {
    if r == 0 then v == 0 else Shl(1, r - 1) <= v < Shl(1, r)
  }

  method BitLength(pn: array<nat>) returns (r: nat)
    requires AreLimbs(pn[..])
    ensures IsBitLength(Value(pn[..]), r) && r <= 32 * pn.Length
  {
    var pos := pn.Length - 1;
    while pos >= 0
      invariant -1 <= pos < pn.Length && forall j :: pos < j < pn.Length ==> pn[j] == 0
    {
      if pn[pos] != 0 {
        var bits := LimbBits(pn[pos]);
        TopLimb(pn[..], pos, bits);
        return 32 * pos + bits + 1;
      }
      pos := pos - 1;
    }
    ValueZeros(pn[..]);
    return 0;
  }

  /** The inner loop: the highest bit set in a limb. */
  method LimbBits(x: nat) returns (bits: nat)
    requires 0 < x < 0x1_0000_0000
    ensures bits < 32 && Shl(1, bits) <= x < Shl(1, bits + 1)
  {
    Shl32(1);
    bits := 31;
    while bits > 0
      invariant bits < 32 && x < Shl(1, bits + 1)
    {
      BitTop(x, bits);
      if Bit(x, bits) {
        return;
      }
      bits := bits - 1;
    }
  }
}
