/** Bitwise operations on unsigned words, as operations on naturals. */
module Bits {
  /** a ^ b */
  function Xor(a: nat, b: nat): nat
    decreases a + b
  {
    if a == 0 && b == 0 then 0 else 2 * Xor(a / 2, b / 2) + Differ(a, b)
  }

  /** The exclusive or of the last bits. */
  function Differ(a: nat, b: nat): nat { if a % 2 == b % 2 then 0 else 1 }

  /** Is bit k of c set? */
  function Bit(c: nat, k: nat): bool
    decreases k, c
  {
    if k == 0 then c % 2 == 1 else Bit(c / 2, k - 1)
  }

  /** a << k */
  function Shl(a: nat, k: nat): nat
    decreases k, a
  {
    if k == 0 then a else 2 * Shl(a, k - 1)
  }

  lemma {:induction false} ShlTwice(a: nat, j: nat, k: nat)
    ensures Shl(Shl(a, j), k) == Shl(a, j + k)
    decreases k
  {
    if k > 0 {
      ShlTwice(a, j, k - 1);
    }
  }

  lemma XorHalves(a: nat, b: nat)
    ensures Xor(a, b) / 2 == Xor(a / 2, b / 2) && Xor(a, b) % 2 == Differ(a, b)
  {
  }

  lemma {:induction false} XorZero(a: nat)
    ensures Xor(a, 0) == a && Xor(0, a) == a && Xor(a, a) == 0
    decreases a
  {
    if a > 0 {
      XorZero(a / 2);
    }
  }

  lemma {:induction false} XorCommutes(a: nat, b: nat)
    ensures Xor(a, b) == Xor(b, a)
    decreases a + b
  {
    if a > 0 || b > 0 {
      XorCommutes(a / 2, b / 2);
    }
  }

  lemma {:induction false} XorAssociates(a: nat, b: nat, c: nat)
    ensures Xor(Xor(a, b), c) == Xor(a, Xor(b, c))
    decreases a + b + c
  {
    if a > 0 || b > 0 || c > 0 {
      var ab, bc := Xor(a, b), Xor(b, c);
      XorHalves(a, b);
      XorHalves(b, c);
      assert Xor(ab, c) / 2 == Xor(a, bc) / 2 by {
        XorAssociates(a / 2, b / 2, c / 2);
        XorHalves(ab, c);
        XorHalves(a, bc);
      }
      assert Xor(ab, c) % 2 == Xor(a, bc) % 2 by {
        XorHalves(ab, c);
        XorHalves(a, bc);
      }
    }
  }

  lemma {:induction false} XorApart(a: nat, b: nat)
    ensures Xor(a, b) == 0 <==> a == b
    decreases a + b
  {
    if a > 0 || b > 0 {
      XorApart(a / 2, b / 2);
    }
  }

  /** Four-way regrouping. */
  lemma XorRegroup(a: nat, b: nat, c: nat, d: nat)
    ensures Xor(Xor(a, b), Xor(c, d)) == Xor(Xor(a, c), Xor(b, d))
  {
    XorAssociates(a, b, Xor(c, d));
    XorAssociates(b, c, d);
    XorCommutes(b, c);
    XorAssociates(c, b, d);
    XorAssociates(a, c, Xor(b, d));
  }

  lemma {:induction false} XorBit(a: nat, b: nat, k: nat)
    ensures Bit(Xor(a, b), k) == (Bit(a, k) != Bit(b, k))
    decreases k
  {
    XorHalves(a, b);
    if k > 0 {
      XorBit(a / 2, b / 2, k - 1);
    }
  }

  lemma {:induction false} XorBelow(k: nat, x: nat, y: nat)
    requires x < Shl(1, k) && y < Shl(1, k)
    ensures Xor(x, y) < Shl(1, k)
    decreases k
  {
    if k > 0 {
      XorBelow(k - 1, x / 2, y / 2);
      XorHalves(x, y);
    }
  }

  /** High and low parts are combined separately. */
  lemma {:induction false} XorSplit(k: nat, a: nat, x: nat, b: nat, y: nat)
    requires x < Shl(1, k) && y < Shl(1, k)
    ensures Xor(Shl(a, k) + x, Shl(b, k) + y) == Shl(Xor(a, b), k) + Xor(x, y)
    decreases k
  {
    if k > 0 {
      XorSplit(k - 1, a, x / 2, b, y / 2);
      XorHalves(x, y);
      XorEven(Shl(a, k - 1), x, Shl(b, k - 1), y);
    }
  }

  /** The last bits of even numbers plus x and y are those of x and y. */
  lemma XorEven(a: nat, x: nat, b: nat, y: nat)
    ensures Xor(2 * a + x, 2 * b + y) == 2 * Xor(a + x / 2, b + y / 2) + Differ(x, y)
  {
    var u, v := 2 * a + x, 2 * b + y;
    assert u / 2 == a + x / 2 && u % 2 == x % 2;
    assert v / 2 == b + y / 2 && v % 2 == y % 2;
    XorHalves(u, v);
  }

  /** a >> k */
  function Shr(a: nat, k: nat): nat
    decreases k, a
  {
    if k == 0 then a else Shr(a / 2, k - 1)
  }

  /** a | b */
  function Or(a: nat, b: nat): nat
    decreases a + b
  {
    if a == 0 && b == 0 then 0 else 2 * Or(a / 2, b / 2) + (if a % 2 == 0 && b % 2 == 0 then 0 else 1)
  }

  /** Bits that do not overlap are added. */
  lemma {:induction false} OrIsSum(k: nat, x: nat, y: nat)
    requires x < Shl(1, k)
    ensures Or(x, Shl(y, k)) == x + Shl(y, k) && Or(Shl(y, k), x) == x + Shl(y, k)
    decreases k
  {
    if k == 0 {
      OrZero(y);
    } else {
      OrIsSum(k - 1, x / 2, y);
    }
  }

  lemma {:induction false} OrZero(a: nat)
    ensures Or(a, 0) == a && Or(0, a) == a
    decreases a
  {
    if a > 0 {
      OrZero(a / 2);
    }
  }

  lemma {:induction false} ShlSum(x: nat, y: nat, k: nat)
    ensures Shl(x + y, k) == Shl(x, k) + Shl(y, k)
    decreases k
  {
    if k > 0 {
      ShlSum(x, y, k - 1);
    }
  }

  lemma {:induction false} ShlMonotone(x: nat, y: nat, k: nat)
    requires x <= y
    ensures Shl(x, k) <= Shl(y, k)
    decreases k
  {
    if k > 0 {
      ShlMonotone(x, y, k - 1);
    }
  }

  /** Shifting right undoes shifting left, and drops what is below. */
  lemma {:induction false} ShrShl(a: nat, x: nat, k: nat)
    requires x < Shl(1, k)
    ensures Shr(Shl(a, k) + x, k) == a
    decreases k
  {
    if k > 0 {
      assert (Shl(a, k) + x) / 2 == Shl(a, k - 1) + x / 2;
      ShrShl(a, x / 2, k - 1);
    }
  }

  lemma {:induction false} ShrTwice(a: nat, j: nat, k: nat)
    ensures Shr(Shr(a, j), k) == Shr(a, j + k)
    decreases j
  {
    if j > 0 {
      ShrTwice(a / 2, j - 1, k);
    }
  }

  /** A number is its high part and its low part. */
  lemma {:induction false} ShrSplits(a: nat, k: nat)
    ensures Shl(Shr(a, k), k) <= a < Shl(Shr(a, k), k) + Shl(1, k)
    decreases k
  {
    if k > 0 {
      ShrSplits(a / 2, k - 1);
    }
  }

  function Zeros(n: nat): (r: seq<nat>)
    ensures |r| == n && forall i :: 0 <= i < n ==> r[i] == 0
  {
    seq(n, i => 0)
  }
}
