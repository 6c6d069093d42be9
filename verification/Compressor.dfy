/** Amount compression: a bijection on the naturals, and what 64-bit arithmetic keeps of it. */
module Compressor {
  const WORD: nat := 0x1_0000_0000_0000_0000

  // ----- on the naturals --------------------------------------------------------------------------------------------

  /** n without e zeros already dropped: drop further zeros, at most nine in all, and pack. */
  function Packed(n: nat, e: nat): nat
    requires n > 0 && e <= 9
    decreases 9 - e
  {
    if n % 10 == 0 && e < 9 then Packed(n / 10, e + 1)
    else if e < 9 then 1 + (n / 10 * 9 + n % 10 - 1) * 10 + e
    else 1 + (n - 1) * 10 + 9
  }

  function Compressed(n: nat): nat { if n == 0 then 0 else Packed(n, 0) }

  /** n * 10^e */
  function Raised(n: nat, e: nat): nat
    decreases e
  {
    if e == 0 then n else Raised(10 * n, e - 1)
  }

  /** The digits and the exponent in a compressed amount other than zero. */
  function Digits(x: nat): nat
    requires x > 0
  {
    var y := (x - 1) / 10;
    if (x - 1) % 10 < 9 then y / 9 * 10 + y % 9 + 1 else y + 1
  }

  function Decompressed(x: nat): nat { if x == 0 then 0 else Raised(Digits(x), (x - 1) % 10) }

  lemma {:induction false} PackedBack(n: nat, e: nat)
    requires n > 0 && e <= 9
    ensures Packed(n, e) > 0 && Decompressed(Packed(n, e)) == Raised(n, e)
    decreases 9 - e
  {
    if n % 10 == 0 && e < 9 {
      PackedBack(n / 10, e + 1);
      assert Raised(n / 10, e + 1) == Raised(10 * (n / 10), e);
    } else {
      LastDigit(n, e);
    }
  }

  lemma LastDigit(n: nat, e: nat)
    requires n > 0 && e <= 9 && (e < 9 ==> n % 10 != 0)
    ensures var x := Packed(n, e); x > 0 && (x - 1) % 10 == e && Digits(x) == n
  {
    if e < 9 {
      var y := n / 10 * 9 + n % 10 - 1;
      assert y / 9 == n / 10 && y % 9 == n % 10 - 1;
    }
  }

  /** Decompression inverts compression. */
  lemma DecompressCompress(n: nat)
    ensures Decompressed(Compressed(n)) == n
  {
    if n > 0 {
      PackedBack(n, 0);
    }
  }

  lemma {:induction false} PackedRaised(n: nat, e: nat, k: nat)
    requires n > 0 && k + e <= 9
    ensures Raised(n, e) > 0 && Packed(Raised(n, e), k) == Packed(n, k + e)
    decreases e
  {
    if e > 0 {
      PackedRaised(10 * n, e - 1, k);
      PackedTen(n, k + e - 1);
    }
  }

  lemma PackedTen(m: nat, k: nat)
    requires m > 0 && k < 9
    ensures Packed(10 * m, k) == Packed(m, k + 1)
  {
    assert 10 * m % 10 == 0 && 10 * m / 10 == m;
  }

  /** The pairs of the unit tests: nothing, one unit, 0.01, 1, 50 and 21 million coins. */
  lemma Published()
    ensures Compressed(0) == 0 && Compressed(1) == 1 && Compressed(1000000) == 7 && Compressed(100000000) == 9
    ensures Compressed(5000000000) == 0x32 && Compressed(2100000000000000) == 0x140_6F40
  {
    assert Packed(1, 6) == 7 && Packed(1, 8) == 9;
    assert Packed(1000, 3) == Packed(100, 4) && Packed(1000000, 0) == Packed(100000, 1);
    assert Packed(100000, 3) == Packed(10000, 4) && Packed(100000000, 0) == Packed(10000000, 1);
    assert Packed(10000, 4) == Packed(1000, 5) && Packed(1000, 5) == Packed(100, 6);
    PackedRaised(5, 9, 0);
    PackedRaised(2100000, 9, 0);
    assert Raised(5, 9) == Raised(5000, 6) && Raised(5000, 6) == Raised(5000000, 3);
    assert Raised(2100000, 9) == Raised(2100000000, 6) && Raised(2100000000, 6) == Raised(2100000000000, 3);
  }

  /** Compression inverts decompression: every natural is the code of an amount. */
  lemma CompressDecompress(x: nat)
    ensures Compressed(Decompressed(x)) == x
  {
    if x > 0 {
      var e, n := (x - 1) % 10, Digits(x);
      PackedRaised(n, e, 0);
      DigitsBack(x);
    }
  }

  lemma DigitsBack(x: nat)
    requires x > 0
    ensures Digits(x) > 0 && Packed(Digits(x), (x - 1) % 10) == x
  {
    var y, e := (x - 1) / 10, (x - 1) % 10;
    if e < 9 {
      var n := y / 9 * 10 + y % 9 + 1;
      assert n % 10 == y % 9 + 1 && n / 10 == y / 9;
    }
  }

  // ----- in 64 bits --------------------------------------------------------------------------------------------------

  lemma {:induction false} PackedBound(n: nat, e: nat)
    requires n > 0 && e <= 9
    ensures e < 9 ==> Packed(n, e) <= 9 * n + e
    ensures e == 9 ==> Packed(n, e) == 10 * n
    decreases 9 - e
  {
    if n % 10 == 0 && e < 9 {
      PackedBound(n / 10, e + 1);
    }
  }

  /** An amount grows at most ninefold. */
  lemma CompressedBound(n: nat)
    ensures Compressed(n) <= 9 * n
  {
    if n > 0 {
      PackedBound(n, 0);
    }
  }

  lemma WordIs(x: nat)
    requires x < WORD
    ensures x % WORD == x
  {
  }

  /** An amount whose compressed form fits 64 bits comes back. */
  lemma FittingComesBack(n: nat)
    requires n < WORD && Compressed(n) < WORD
    ensures Decompressed(Compressed(n) % WORD) % WORD == n
  {
    DecompressCompress(n);
    WordIs(Compressed(n));
    WordIs(n);
  }

  /** In particular every amount up to (2^64 - 1) / 9. */
  lemma AmountsFit(n: nat)
    requires n <= (WORD - 1) / 9
    ensures Compressed(n) < WORD
  {
    CompressedBound(n);
  }

  /** The bound matters: this amount is below the configured maximum of 35000000000 coins and does
      not come back. */
  lemma LargeAmountLost()
    ensures var n := 2049638230412172403;
      n <= 35000000000 * 100000000 && Compressed(n) >= WORD && Decompressed(Compressed(n) % WORD) % WORD == 10000 != n
  {
    var n := 2049638230412172403;
    assert Compressed(n) == 1 + (n / 10 * 9 + n % 10 - 1) * 10;
    assert Compressed(n) % WORD == 5;
    assert Digits(5) == 1;
    assert Raised(1, 4) == Raised(10, 3) && Raised(10, 3) == Raised(100, 2) && Raised(100, 2) == Raised(1000, 1);
    assert Raised(1000, 1) == Raised(10000, 0);
  }

  /** CompressAmount, with the wrap-around of 64-bit arithmetic. */
  method CompressAmount(amount: nat) returns (r: nat)
    requires amount < WORD
    ensures r == Compressed(amount) % WORD
  {
    if amount == 0 {
      return 0;
    }
    var n: nat, e: nat := amount, 0;
    while n % 10 == 0 && e < 9
      invariant 0 < n < WORD && e <= 9 && Packed(n, e) == Packed(amount, 0)
      decreases 9 - e
    {
      n := n / 10;
      e := e + 1;
    }
    r := PackWord(n, e);
  }

  /** The last step of CompressAmount. */
  method PackWord(stripped: nat, e: nat) returns (r: nat)
    requires stripped > 0 && e <= 9 && (e < 9 ==> stripped % 10 != 0)
    ensures r == Packed(stripped, e) % WORD
  {
    var n := stripped;
    if e < 9 {
      var d := n % 10;
      assert 1 <= d <= 9;
      n := n / 10;
      PackedWraps(n * 9 + d - 1, e);
      r := (1 + (n * 9 + d - 1) % WORD * 10 + e) % WORD;
    } else {
      r := (1 + (n - 1) * 10 + 9) % WORD;
    }
  }

  /** DecompressAmount, with the wrap-around of 64-bit arithmetic. */
  method DecompressAmount(code: nat) returns (r: nat)
    requires code < WORD
    ensures r == Decompressed(code) % WORD
  {
    if code == 0 {
      return 0;
    }
    var x: nat := code - 1;
    var e: nat := x % 10;
    x := x / 10;
    var n: nat := if e < 9 then x / 9 * 10 + (x % 9 + 1) else x + 1;
    r := n % WORD;
    ghost var exact: nat := n;
    while e != 0
      invariant r == exact % WORD && Raised(exact, e) == Decompressed(code)
    {
      TenTimes(exact);
      exact := 10 * exact;
      r := r * 10 % WORD;
      e := e - 1;
    }
  }

  lemma TenTimes(a: nat)
    ensures a % WORD * 10 % WORD == 10 * a % WORD
  {
    AddMultiple(10 * (a % WORD), 10 * (a / WORD));
  }

  lemma PackedWraps(a: nat, e: nat)
    ensures (1 + a % WORD * 10 + e) % WORD == (1 + a * 10 + e) % WORD
  {
    AddMultiple(1 + a % WORD * 10 + e, 10 * (a / WORD));
  }

  lemma AddMultiple(x: nat, k: nat)
    ensures (x + WORD * k) % WORD == x % WORD
  {
  }
}
