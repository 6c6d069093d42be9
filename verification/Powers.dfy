/** Comparing powers of different bases. */
module Powers {

  function Pow(b: nat, n: nat): (r: nat)
  {
    if n == 0 then 1 else b * Pow(b, n - 1)
  }

  lemma MulPositive(x: nat, y: nat)
    requires x > 0 && y > 0
    ensures x * y > 0
  {
    assert (x - 1) * y >= 0;
  }

  lemma MulLess(a: nat, b: nat, c: nat, d: nat)
    requires a <= b && c <= d
    ensures a * c <= b * d
  {
    assert (b - a) * c >= 0;
    assert b * (d - c) >= 0;
  }

  lemma {:induction false} PowPositive(b: nat, n: nat)
    requires b > 0
    ensures Pow(b, n) > 0
  {
    if n > 0 {
      PowPositive(b, n - 1);
      MulPositive(b, Pow(b, n - 1));
    }
  }

  lemma {:induction false} PowAdd(b: nat, m: nat, n: nat)
    ensures Pow(b, m + n) == Pow(b, m) * Pow(b, n)
  {
    if m > 0 {
      PowAdd(b, m - 1, n);
      assert m + n - 1 == (m - 1) + n;
      MulAssoc(b, Pow(b, m - 1), Pow(b, n));
    }
  }

  lemma MulAssoc(x: int, y: int, z: int)
    ensures x * (y * z) == (x * y) * z
  {
  }

  lemma {:induction false} PowPow(b: nat, m: nat, n: nat)
    ensures Pow(Pow(b, m), n) == Pow(b, m * n)
  {
    if n > 0 {
      PowPow(b, m, n - 1);
      assert m * n == m + m * (n - 1);
      PowAdd(b, m, m * (n - 1));
    } else {
      assert m * 0 == 0;
    }
  }

  lemma {:induction false} PowMonotone(a: nat, b: nat, n: nat)
    requires a <= b
    ensures Pow(a, n) <= Pow(b, n)
  {
    if n > 0 {
      PowMonotone(a, b, n - 1);
      MulLess(a, b, Pow(a, n - 1), Pow(b, n - 1));
    }
  }

  lemma {:induction false} PowStrict(a: nat, b: nat, n: nat)
    requires a < b && n > 0
    ensures Pow(a, n) < Pow(b, n)
  {
    PowMonotone(a, b, n - 1);
    PowPositive(b, n - 1);
    MulLess(a, a, Pow(a, n - 1), Pow(b, n - 1));
    assert b * Pow(b, n - 1) == a * Pow(b, n - 1) + (b - a) * Pow(b, n - 1);
    MulPositive(b - a, Pow(b, n - 1));
  }

  lemma {:induction false} PowLonger(b: nat, m: nat, n: nat)
    requires b > 0 && m <= n
    ensures Pow(b, m) <= Pow(b, n)
  {
    if m < n {
      PowLonger(b, m, n - 1);
      MulLess(1, b, Pow(b, n - 1), Pow(b, n - 1));
    }
  }

  /** Roots are monotone. */
  lemma PowRoot(a: nat, b: nat, x: nat)
    requires x > 0 && Pow(a, x) <= Pow(b, x)
    ensures a <= b
  {
    if a > b {
      PowStrict(b, a, x);
    }
  }

  lemma PowSwap(b: nat, m: nat, x: nat)
    ensures Pow(Pow(b, m), x) == Pow(Pow(b, x), m)
  {
    PowPow(b, m, x);
    PowPow(b, x, m);
    assert m * x == x * m;
  }

  /** From a^x <= b^y: every a^n is at most b^m as soon as m/n is at least y/x. */
  lemma PowersCompare(a: nat, b: nat, x: nat, y: nat, n: nat, m: nat, short: nat, long: nat)
    requires a > 0 && b > 0 && x > 0 && Pow(a, x) <= Pow(b, y)
    requires short == n * y && long == x * m && short <= long
    ensures Pow(a, n) <= Pow(b, m)
  {
    var A, B := Pow(a, n), Pow(b, m);
    assert Pow(Pow(a, x), n) <= Pow(Pow(b, y), n) by { PowMonotone(Pow(a, x), Pow(b, y), n); }
    assert Pow(A, x) == Pow(Pow(a, x), n) by { PowSwap(a, n, x); }
    assert Pow(Pow(b, y), n) <= Pow(B, x) by { PowersChain(b, x, y, n, m, short, long); }
    PowRoot(A, B, x);
  }

  lemma PowersChain(b: nat, x: nat, y: nat, n: nat, m: nat, short: nat, long: nat)
    requires b > 0 && short == n * y && long == x * m && short <= long
    ensures Pow(Pow(b, y), n) <= Pow(Pow(b, m), x)
  {
    var low, high := Pow(Pow(b, y), n), Pow(Pow(b, m), x);
    assert low == Pow(b, short) by { PowPow2(b, y, n, short); }
    assert high == Pow(b, long) by { PowPow2(b, m, x, long); }
    assert Pow(b, short) <= Pow(b, long) by { PowLonger(b, short, long); }
  }

  lemma PowPow2(b: nat, m: nat, x: nat, e: nat)
    requires e == x * m
    ensures Pow(Pow(b, m), x) == Pow(b, e)
  {
    PowPow(b, m, x);
    assert m * x == x * m;
  }

  // ----- the two comparisons behind the Base58 buffer sizes ----------------------------------

  lemma Pow58Values()
    ensures Pow(58, 1) == 58 && Pow(58, 2) == 3364 && Pow(58, 3) == 195112
    ensures Pow(58, 8) == 128063081718016
  {
    assert Pow(58, 1) == 58;
    assert Pow(58, 2) == 3364;
    PowAdd(58, 1, 2);
    PowAdd(58, 2, 2);
    PowAdd(58, 4, 4);
  }

  lemma Pow256Values()
    ensures Pow(256, 1) == 256 && Pow(256, 2) == 65536 && Pow(256, 4) == 4294967296
    ensures Pow(256, 8) == 18446744073709551616
  {
    assert Pow(256, 1) == 256;
    assert Pow(256, 2) == 65536;
    PowAdd(256, 2, 2);
    PowAdd(256, 4, 4);
  }

  lemma Compare256To58()
    ensures Pow(256, 8) <= Pow(58, 11)
  {
    Pow256Values();
    Pow58Values();
    PowAdd(58, 8, 3);
  }

  /** n bytes fit into n * 138 / 100 + 1 digits of base 58. */
  lemma BytesFitDigits(n: nat)
    ensures Pow(256, n) <= Pow(58, n * 138 / 100 + 1)
  {
    Compare256To58();
    var m := n * 138 / 100 + 1;
    PowersCompare(256, 58, 8, 11, n, m, n * 11, 8 * m);
  }

  lemma Pow58Large()
    ensures Pow(58, 71) == 159730386663078066345306447337161584696769904898410078913243029577507397293846405390982563136983769384625594118558891106107392
  {
    Pow58Values();
    PowAdd(58, 8, 8);
    PowAdd(58, 16, 16);
    PowAdd(58, 32, 32);
    assert Pow(58, 64) == 72342179355466901471258927612150153907721848234316445933056526044582001260898145151856420451025374266490194231296;
    PowAdd(58, 2, 2);
    PowAdd(58, 4, 3);
    assert Pow(58, 7) == 2207984167552;
    PowAdd(58, 64, 7);
  }

  lemma Pow256Large()
    ensures Pow(256, 52) == 169230328010303641331690318856389386196071598838855992136870091590247882556495704531248437872567112920983350278405979725889536
  {
    Pow256Values();
    PowAdd(256, 8, 8);
    PowAdd(256, 16, 16);
    PowAdd(256, 32, 16);
    PowAdd(256, 48, 4);
  }

  /** n digits of base 58 fit into n * 733 / 1000 + 1 bytes. */
  lemma DigitsFitBytes(n: nat)
    ensures Pow(58, n) <= Pow(256, n * 733 / 1000 + 1)
  {
    Pow58Large();
    Pow256Large();
    var m := n * 733 / 1000 + 1;
    PowersCompare(58, 256, 71, 52, n, m, n * 52, 71 * m);
  }
}
