/** When the 64-bit code of amount compression gives an amount back: exactly when no word of it
    overflows. */
module CompressorWords {
  import opened Compressor

  /** The last digit is not zero: nothing is dropped, and this is the compressed form. */
  lemma UnstrippedForm(n: nat)
    requires n % 10 != 0
    ensures Compressed(n) == 90 * (n / 10) + 10 * (n % 10) - 9
  {
  }

  /** A trailing zero leaves room for the factor nine. */
  lemma StrippedFits(n: nat)
    requires n < WORD && n % 10 == 0
    ensures Compressed(n) < WORD
  {
    if n > 0 {
      PackedBound(n / 10, 1);
    }
  }

  /** What the digits of a wrapped code stand for: n less a constant, or one less than that if the
      last digit borrows. */
  lemma Lag(n: nat, c: nat, y: int, nines: nat, rest: nat, e: nat)
    requires n % 10 != 0 && c > 0 && c - 1 == 10 * y + e && e < 9 && rest < 9
    requires y == 9 * (n / 10) + n % 10 - 1 - (9 * nines + rest)
    ensures (c - 1) % 10 == e
    ensures Digits(c) == n - (10 * nines + rest) || Digits(c) == n - (10 * nines + rest) - 1
  {
    assert (c - 1) / 10 == y;
    var r := n % 10 - 1 - rest;
    if r >= 0 {
      assert y == 9 * (n / 10 - nines) + r;
    } else {
      assert y == 9 * (n / 10 - nines - 1) + (r + 9);
    }
  }

  lemma RaisedEven(m: nat)
    ensures Raised(m, 2) == 100 * m && Raised(m, 4) == 10000 * m
    ensures Raised(m, 6) == 1000000 * m && Raised(m, 8) == 100000000 * m
  {
    RaisedTwo(m, 0);
    RaisedTwo(m, 2);
    RaisedTwo(100 * m, 2);
    RaisedTwo(m, 4);
    RaisedTwo(100 * m, 0);
    RaisedTwo(10000 * m, 0);
    RaisedTwo(1000000 * m, 0);
    RaisedTwo(100 * m, 4);
    RaisedTwo(10000 * m, 2);
    RaisedTwo(m, 6);
  }

  lemma RaisedTwo(m: nat, e: nat)
    ensures Raised(m, e + 2) == Raised(100 * m, e)
  {
    assert Raised(m, e + 2) == Raised(10 * m, e + 1);
  }

  lemma Factor(d: int, e: int)
    requires WORD * d == e && e < WORD && e + WORD > 0
    ensures e == 0
  {
  }

  /** factor - 1 is odd, hence invertible modulo 2^64: only one word n can be what factor times
      n - lag wraps to. */
  lemma OnlyReturn(n: int, lag: int, factor: int, inverse: int, over: int, at: int, wraps: int)
    requires 0 <= n < WORD && 0 <= at < WORD && factor * (n - lag) >= 0
    requires (factor - 1) * inverse == 1 + over * WORD && inverse * (factor * lag) == at + wraps * WORD
    ensures factor * (n - lag) % WORD == n ==> n == at
  {
    var k := factor * (n - lag) / WORD;
    if factor * (n - lag) % WORD == n {
      assert factor * (n - lag) == WORD * k + n;
      assert (factor - 1) * n == factor * lag + WORD * k by { Distribute(n, lag, factor); }
      Multiplied(n, factor - 1, factor * lag + WORD * k, inverse, over);
      assert inverse * (factor * lag + WORD * k) == inverse * (factor * lag) + WORD * (inverse * k);
      assert n - at == WORD * (wraps + inverse * k - over * n);
      Factor(wraps + inverse * k - over * n, n - at);
    }
  }

  lemma Distribute(n: int, lag: int, factor: int)
    ensures factor * (n - lag) == (factor - 1) * n + n - factor * lag
  {
  }

  lemma Multiplied(n: int, a: int, b: int, inverse: int, over: int)
    requires a * n == b && a * inverse == 1 + over * WORD
    ensures n + WORD * (over * n) == inverse * b
  {
    assert inverse * (a * n) == (a * inverse) * n;
    assert (1 + over * WORD) * n == n + WORD * (over * n);
  }

  /** The compressed form of n overflows exactly j times. */
  predicate OverflowsBy(n: nat, j: nat) {
    0 < 90 * (n / 10) + 10 * (n % 10) - 9 - j * WORD < WORD
  }

  /** What j overflows cost: lag = 10 * nines + rest, and e zeros are left, factor = 10^e.  The inverse is
      that of factor - 1, first and second are the words that could come back, and the rest says how often
      the products wrap around. */
  datatype Loss = Loss(nines: nat, rest: nat, e: nat, factor: nat, inverse: nat, over: nat,
                       first: nat, firstWraps: nat, second: nat, secondWraps: nat)

  predicate Hopeless(j: nat, l: Loss) {
    && Costs(j, l.nines, l.rest, l.e) && (l.factor - 1) * l.inverse == 1 + l.over * WORD
    && Returns(j, 10 * l.nines + l.rest, l.factor, l.inverse, l.first, l.firstWraps)
    && Returns(j, 10 * l.nines + l.rest + 1, l.factor, l.inverse, l.second, l.secondWraps)
  }

  predicate Costs(j: nat, nines: nat, rest: nat, e: nat) {
    j * WORD == 10 * (9 * nines + rest) - e && e < 9 && rest < 9
  }

  /** The one word that could come back when lag is lost, and it does not overflow as often. */
  predicate Returns(j: nat, lag: nat, factor: nat, inverse: nat, word: nat, wraps: nat) {
    inverse * (factor * lag) == word + wraps * WORD && word < WORD && !OverflowsBy(word, j)
  }

  function LossOf(j: nat): Loss {
    if j == 1 then Loss(204963823041217240, 2, 4, 10000, 13458245626333751279, 7295, 15288550632769423584, 14953606251481945867176, 10300052185393623248, 14953606251481945874472)
    else if j == 2 then Loss(409927646082434480, 4, 8, 100000000, 300153063250403071, 1627133, 14480868974329830400, 6670068072231179356278725, 14781022037580233472, 6670068072231179357905858)
    else if j == 3 then Loss(614891469123651720, 5, 2, 100, 12670490878911611211, 68, 1925417731599313468, 422349695963720373677, 14595908610510924680, 422349695963720373745)
    else if j == 4 then Loss(819855292164868960, 7, 6, 1000000, 1672254362768354751, 90653, 14161661572577611840, 743224161230379889323260, 15833915935345966592, 743224161230379889413913)
    else if j == 6 then Loss(1229782938247303441, 1, 4, 10000, 13458245626333751279, 7295, 4486081875444583760, 89721637508891675195765, 17944327501778335040, 89721637508891675203060)
    else if j == 7 then Loss(1434746761288520681, 3, 8, 100000000, 300153063250403071, 1627133, 4266028162630124288, 23345238252809127745348407, 4566181225880527360, 23345238252809127746975540)
    else Loss(1639710584329737921, 4, 2, 100, 12670490878911611211, 68, 7432526512302726184, 1126265855903254329851, 1656273317504785780, 1126265855903254329920)
  }

  lemma FewOverflows()
    ensures Hopeless(1, LossOf(1)) && Hopeless(2, LossOf(2)) && Hopeless(3, LossOf(3)) && Hopeless(4, LossOf(4))
  {
  }

  lemma ManyOverflows()
    ensures Hopeless(6, LossOf(6)) && Hopeless(7, LossOf(7)) && Hopeless(8, LossOf(8))
  {
  }

  lemma LossIs(j: nat, m: nat) returns (l: Loss)
    requires 1 <= j <= 8 && j != 5
    ensures Hopeless(j, l) && Raised(m, l.e) == l.factor * m
  {
    l := LossOf(j);
    FewOverflows();
    ManyOverflows();
    RaisedEven(m);
  }

  /** The compressed form overflows j times: what is left stands for n - lag or one less, followed by
      e zeros. */
  lemma Overflow(n: nat, c: nat, j: nat, l: Loss)
    requires n < WORD && n % 10 != 0 && 90 * (n / 10) + 10 * (n % 10) - 9 == c + j * WORD && 0 < c < WORD
    requires Raised(Digits(c), l.e) == l.factor * Digits(c) && Hopeless(j, l)
    ensures Decompressed(c) % WORD != n
  {
    var m := Digits(c);
    Lag(n, c, 9 * (n / 10) + n % 10 - 1 - (9 * l.nines + l.rest), l.nines, l.rest, l.e);
    if m == n - (10 * l.nines + l.rest) {
      OnlyReturn(n, n - m, l.factor, l.inverse, l.over, l.first, l.firstWraps);
    } else {
      OnlyReturn(n, n - m, l.factor, l.inverse, l.over, l.second, l.secondWraps);
    }
  }

  /** The compressed form overflows five times: no zeros follow. */
  lemma OverflowFive(n: nat, c: nat)
    requires n < WORD && n % 10 != 0 && 90 * (n / 10) + 10 * (n % 10) - 9 == c + 5 * WORD && c < WORD
    ensures Decompressed(c) % WORD != n
  {
    Lag(n, c, 9 * (n / 10) + n % 10 - 1 - 9223372036854775808, 1024819115206086200, 8, 0);
    var m := Digits(c);
    assert Decompressed(c) == m;
    WordIs(m);
  }

  /** The code of the source gives an amount back if and only if it ends in a zero or its
      compressed form, which a caller can compute, fits 64 bits. */
  lemma WordRoundTrip(n: nat)
    requires n < WORD
    ensures Decompressed(Compressed(n) % WORD) % WORD == n <==>
      n % 10 == 0 || 90 * (n / 10) + 10 * (n % 10) - 9 < WORD
  {
    if n % 10 == 0 {
      StrippedFits(n);
      FittingComesBack(n);
    } else {
      UnstrippedForm(n);
      if 90 * (n / 10) + 10 * (n % 10) - 9 < WORD {
        FittingComesBack(n);
      } else {
        LostWhenOver(n, Compressed(n) % WORD, Compressed(n) / WORD);
      }
    }
  }

  lemma LostWhenOver(n: nat, c: nat, j: nat)
    requires n < WORD && n % 10 != 0 && 90 * (n / 10) + 10 * (n % 10) - 9 == c + j * WORD && c < WORD && j > 0
    ensures Decompressed(c) % WORD != n
  {
    if j == 5 {
      OverflowFive(n, c);
    } else {
      assert j <= 8;
      assert c % 2 == 1;
      var l := LossIs(j, Digits(c));
      Overflow(n, c, j, l);
    }
  }
}
