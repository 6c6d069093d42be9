/** The compact format of 256-bit targets: one byte of size, a sign bit and 23 bits of mantissa. */
module Compact {
  import opened Bits
  import opened Limbs
  import opened LimbOps
  import opened ArithUint
  import opened ArithShift

  // ----- byte length --------------------------------------------------------------------------------------------

  /** The position of the highest bit plus one, or zero. */
  function Length(v: nat): nat { if v == 0 then 0 else 1 + Length(v / 2) }

  lemma {:induction false} LengthIs(v: nat)
    ensures IsBitLength(v, Length(v))
    decreases v
  {
    if v > 0 {
      LengthIs(v / 2);
      if v / 2 == 0 {
        assert Length(v) == 1 && Shl(1, 1) == 2;
      }
    }
  }

  lemma LengthUnique(v: nat, r: nat)
    requires IsBitLength(v, r)
    ensures r == Length(v)
  {
    LengthIs(v);
    var l := Length(v);
    if r < l {
      ShlPositive(l - 1);
      if r > 0 { ShlLonger(r, l - 1); }
    } else if l < r {
      ShlPositive(r - 1);
      if l > 0 { ShlLonger(l, r - 1); }
    }
  }

  function Bytes(v: nat): nat { (Length(v) + 7) / 8 }

  /** b bytes are needed exactly from 256^(b-1) on and below 256^b. */
  lemma BytesIs(v: nat, b: nat)
    requires v > 0 && b > 0
    ensures Bytes(v) == b <==> Shl(1, 8 * (b - 1)) <= v < Shl(1, 8 * b)
  {
    LengthIs(v);
    var l := Length(v);
    if Bytes(v) == b {
      ShlLonger(8 * (b - 1), l - 1);
      ShlLonger(l, 8 * b);
    } else if Bytes(v) < b {
      ShlLonger(l, 8 * (b - 1));
    } else {
      ShlLonger(8 * b, l - 1);
    }
  }

  // ----- the format ------------------------------------------------------------------------------------------------

  function Size(c: nat): nat { c / 0x100_0000 }
  function Word(c: nat): nat { c % 0x80_0000 }
  predicate Sign(c: nat) { c / 0x80_0000 % 2 == 1 }

  /** The number a compact stands for, before it is cut to 256 bits. */
  function Meaning(c: nat): nat { Scaled(Size(c), Word(c)) }

  /** word times 256^(size - 3), rounded down. */
  function Scaled(size: nat, word: nat): nat {
    if size <= 3 then Shr(word, 8 * (3 - size)) else Shl(word, 8 * (size - 3))
  }

  /** The mantissa before the sign bit is made room for. */
  function Mantissa(v: nat): nat {
    var b := Bytes(v);
    if b <= 3 then Shl(v, 8 * (3 - b)) else Shr(v, 8 * (b - 3))
  }

  function Joined(size: nat, word: nat, negative: bool): nat {
    0x100_0000 * size + word + (if negative && word != 0 then 0x80_0000 else 0)
  }

  function CompactOf(v: nat, negative: bool): nat {
    var m := Mantissa(v);
    if m < 0x80_0000 then Joined(Bytes(v), m, negative) else Joined(Bytes(v) + 1, m / 256, negative)
  }

  lemma JoinedParts(size: nat, word: nat, negative: bool)
    requires word < 0x80_0000
    ensures var c := Joined(size, word, negative);
      Size(c) == size && Word(c) == word && Sign(c) == (negative && word != 0)
  {
  }

  // ----- powers ------------------------------------------------------------------------------------------------------

  lemma Literals()
    ensures Shl(1, 8) == 0x100 && Shl(1, 15) == 0x8000 && Shl(1, 16) == 0x1_0000 && Shl(1, 24) == 0x100_0000
  {
    ShlEight(1);
    ShlEight(0x100);
    ShlEight(0x1_0000);
    ShlTwice(1, 8, 8);
    ShlTwice(1, 16, 8);
  }

  lemma ShrEight(m: nat)
    ensures Shr(m, 8) == m / 256
  {
    ShlEight(m / 256);
    Literals();
    ShrShl(m / 256, m % 256, 8);
  }

  /** The high part of a number between two powers. */
  lemma ShrBetween(v: nat, k: nat, lo: nat, hi: nat)
    requires Shl(1, lo + k) <= v < Shl(1, hi + k)
    ensures Shl(1, lo) <= Shr(v, k) < Shl(1, hi)
  {
    ShrSplits(v, k);
    var m := Shr(v, k);
    ShlTwice(1, lo, k);
    ShlTwice(1, hi, k);
    ShlSum(m, 1, k);
    if m < Shl(1, lo) {
      ShlMonotone(m + 1, Shl(1, lo), k);
    }
    if m >= Shl(1, hi) {
      ShlMonotone(Shl(1, hi), m, k);
    }
  }

  lemma ShlBetween(v: nat, k: nat, lo: nat, hi: nat)
    requires Shl(1, lo) <= v < Shl(1, hi)
    ensures Shl(1, lo + k) <= Shl(v, k) < Shl(1, hi + k)
  {
    ShlTwice(1, lo, k);
    ShlTwice(1, hi, k);
    ShlMonotone(Shl(1, lo), v, k);
    ShlMonotone(v + 1, Shl(1, hi), k);
    ShlSum(v, 1, k);
    ShlPositive(k);
  }

  /** The mantissa of a number other than zero has its leading byte in place. */
  lemma MantissaBounds(v: nat)
    requires v > 0
    ensures 0x1_0000 <= Mantissa(v) < 0x100_0000 && Bytes(v) > 0
  {
    var b := Bytes(v);
    assert Length(v) > 0;
    BytesIs(v, b);
    Literals();
    if b <= 3 {
      ShlBetween(v, 8 * (3 - b), 8 * (b - 1), 8 * b);
    } else {
      ShrBetween(v, 8 * (b - 3), 16, 24);
    }
  }

  // ----- round trip --------------------------------------------------------------------------------------------------

  /** What a compact loses: the bits below place k. */
  lemma Truncated(v: nat, k: nat)
    requires Shr(v, k) >= 0x8000
    ensures Shl(Shr(v, k), k) <= v && Shl(v - Shl(Shr(v, k), k), 15) < v
  {
    var m := Shr(v, k);
    var lost := v - Shl(m, k);
    ShrSplits(v, k);
    Literals();
    ShlMonotone(lost + 1, Shl(1, k), 15);
    ShlSum(lost, 1, 15);
    ShlTwice(1, k, 15);
    ShlTwice(1, 15, k);
    ShlMonotone(0x8000, m, k);
  }

  lemma ExactBack(v: nat, k: nat)
    ensures Shr(Shl(v, k), k) == v
  {
    ShlPositive(k);
    ShrShl(v, 0, k);
  }

  /** Size and mantissa after the sign bit was made room for. */
  function FinalSize(v: nat): nat { if Mantissa(v) < 0x80_0000 then Bytes(v) else Bytes(v) + 1 }
  function FinalWord(v: nat): nat { if Mantissa(v) < 0x80_0000 then Mantissa(v) else Mantissa(v) / 256 }

  lemma CompactParts(v: nat, negative: bool)
    requires v > 0
    ensures CompactOf(v, negative) == Joined(FinalSize(v), FinalWord(v), negative)
    ensures 0x8000 <= FinalWord(v) < 0x80_0000
    ensures var c := CompactOf(v, negative);
      Size(c) == FinalSize(v) && Word(c) == FinalWord(v) && Sign(c) == negative
  {
    MantissaBounds(v);
    JoinedParts(FinalSize(v), FinalWord(v), negative);
  }

  /** A small number is represented exactly. */
  lemma SmallExact(v: nat)
    requires v > 0 && FinalSize(v) <= 3
    ensures Shr(FinalWord(v), 8 * (3 - FinalSize(v))) == v
  {
    var b := Bytes(v);
    if Mantissa(v) < 0x80_0000 {
      ExactBack(v, 8 * (3 - b));
    } else {
      var k := 8 * (2 - b);
      ShlTwice(v, k, 8);
      ShrEight(Mantissa(v));
      ExactBack(Shl(v, k), 8);
      ExactBack(v, k);
    }
  }

  /** A large number keeps its leading bits. */
  lemma LargeWord(v: nat)
    requires v > 0 && FinalSize(v) > 3
    ensures FinalWord(v) == Shr(v, 8 * (FinalSize(v) - 3))
  {
    var b := Bytes(v);
    ShrEight(Mantissa(v));
    if b > 3 {
      ShrTwice(v, 8 * (b - 3), 8);
    }
  }

  /** The value of a compact that was made from v: at most v, short by less than one part in 2^15,
      and never an overflow. */
  lemma RoundTrip(v: nat, negative: bool)
    ensures var w := Meaning(CompactOf(v, negative));
      w <= v && (v > 0 ==> Shl(v - w, 15) < v) && (w == 0 <==> v == 0)
    ensures Sign(CompactOf(v, negative)) <==> negative && v > 0
  {
    if v == 0 {
      assert CompactOf(0, negative) == 0 by { ZeroShifts(24); }
      ZeroShifts(24);
    } else {
      CompactParts(v, negative);
      if FinalSize(v) <= 3 {
        SmallExact(v);
        ZeroShifts(15);
      } else {
        LargeWord(v);
        Truncated(v, 8 * (FinalSize(v) - 3));
        ShlMonotone(1, FinalWord(v), 8 * (FinalSize(v) - 3));
        ShlPositive(8 * (FinalSize(v) - 3));
      }
    }
  }

  /** Cutting the low bits away changes neither the byte length nor the mantissa. */
  lemma CutKeeps(v: nat, k: nat, w: nat)
    requires v > 0 && Bytes(v) > 3 && w == Shl(Shr(v, k), k)
    requires k == 8 * (Bytes(v) - 3)
    ensures w > 0 && Bytes(w) == Bytes(v) && Mantissa(w) == Mantissa(v)
  {
    var b := Bytes(v);
    MantissaBounds(v);
    ShrSplits(v, k);
    BytesIs(v, b);
    Literals();
    ShlMonotone(0x1_0000, Shr(v, k), k);
    ShlTwice(1, 16, k);
    ShlPositive(8 * (b - 1));
    BytesIs(w, b);
    ExactBack(Shr(v, k), k);
  }

  /** The same when a whole byte of the mantissa goes too. */
  lemma CutByteKeeps(v: nat, k: nat, w: nat)
    requires v > 0 && Bytes(v) >= 3 && Mantissa(v) >= 0x80_0000 && w == Shl(Shr(v, k), k)
    requires k == 8 * (Bytes(v) - 2)
    ensures w > 0 && Bytes(w) == Bytes(v) && Mantissa(w) == 256 * (Mantissa(v) / 256)
  {
    var b := Bytes(v);
    var j := 8 * (b - 3);
    MantissaBounds(v);
    ShrTwice(v, j, 8);
    var m := Mantissa(v);
    assert m == Shr(v, j);
    ShrEight(m);
    ShlTwice(m / 256, 8, j);
    ShlEight(m / 256);
    assert w == Shl(256 * (m / 256), j);
    ShrSplits(v, k);
    Literals();
    ShlMonotone(0x1_0000, 256 * (m / 256), j);
    ShlTwice(1, 16, j);
    ShlPositive(8 * (b - 1));
    BytesIs(v, b);
    BytesIs(w, b);
    ExactBack(256 * (m / 256), j);
  }

  /** The value of a compact that was made from a number goes back to the same compact. */
  lemma FixedPoint(v: nat, negative: bool)
    ensures CompactOf(Meaning(CompactOf(v, negative)), negative) == CompactOf(v, negative)
  {
    if v == 0 {
      RoundTrip(v, negative);
    } else {
      CompactParts(v, negative);
      if FinalSize(v) <= 3 {
        SmallExact(v);
      } else {
        LargeWord(v);
        var k := 8 * (FinalSize(v) - 3);
        var w := Shl(Shr(v, k), k);
        if Mantissa(v) < 0x80_0000 {
          CutKeeps(v, k, w);
        } else {
          CutByteKeeps(v, k, w);
        }
      }
    }
  }

  // ----- overflow ------------------------------------------------------------------------------------------------------

  /** The test of the source. */
  predicate Overflows(size: nat, word: nat) {
    word != 0 && (size > 34 || (word > 0xff && size > 33) || (word > 0xffff && size > 32))
  }

  lemma Modulus256()
    ensures Modulus(8) == Shl(1, 256)
  {
    LiftIs(1, 8);
    LiftIsShl(1, 8);
  }

  /** The overflow test is exact: it says that mantissa times 256^(size - 3) is at least 2^256. */
  lemma OverflowExact(size: nat, word: nat)
    requires size > 3 && word < 0x80_0000
    ensures Overflows(size, word) <==> Shl(word, 8 * (size - 3)) >= Shl(1, 256)
  {
    var k := 8 * (size - 3);
    Literals();
    if size > 34 {
      if word == 0 {
        ZeroShifts(k);
        ShlPositive(256);
      } else {
        ShlMonotone(1, word, k);
        ShlLonger(256, k);
      }
    } else if size == 34 {
      Threshold(word, 8, k);
    } else if size == 33 {
      Threshold(word, 16, k);
    } else {
      ShlMonotone(word + 1, 0x100_0000, k);
      ShlSum(word, 1, k);
      ShlPositive(k);
      ShlTwice(1, 24, k);
      ShlLonger(24 + k, 256);
    }
  }

  lemma Threshold(word: nat, j: nat, k: nat)
    requires j + k == 256
    ensures Shl(word, k) >= Shl(1, 256) <==> word >= Shl(1, j)
  {
    ShlTwice(1, j, k);
    if word >= Shl(1, j) {
      ShlMonotone(Shl(1, j), word, k);
    } else {
      ShlMonotone(word + 1, Shl(1, j), k);
      ShlSum(word, 1, k);
      ShlPositive(k);
    }
  }

  // ----- which compacts come back ------------------------------------------------------------------------------------------

  /** The form GetCompact gives: a leading byte other than zero, or zero only before a byte whose top
      bit would be the sign, and nothing that a small size cuts off. */
  predicate Canonical(c: nat) { c == 0 || CanonicalParts(Size(c), Word(c)) }

  predicate CanonicalParts(size: nat, word: nat) {
    0x8000 <= word < 0x80_0000 && (size >= 3 || (size == 2 && word % 0x100 == 0) || (size == 1 && word % 0x1_0000 == 0))
  }

  lemma ShlSixteen(v: nat)
    ensures Shl(v, 16) == 0x1_0000 * v
  {
    ShlEight(v);
    ShlEight(256 * v);
    ShlTwice(v, 8, 8);
  }

  lemma ShrSixteen(v: nat)
    ensures Shr(v, 16) == v / 0x1_0000
  {
    ShrEight(v);
    ShrEight(v / 256);
    ShrTwice(v, 8, 8);
  }

  /** A compact made from a number is canonical. */
  lemma MadeIsCanonical(v: nat, negative: bool)
    ensures Canonical(CompactOf(v, negative))
  {
    if v == 0 {
      ZeroShifts(24);
    } else {
      CompactParts(v, negative);
      FinalCanonical(v);
    }
  }

  lemma FinalCanonical(v: nat)
    requires v > 0
    ensures CanonicalParts(FinalSize(v), FinalWord(v))
  {
    MantissaBounds(v);
    if FinalSize(v) < 3 {
      SmallWord(v);
      ShlEight(v);
      ShlSixteen(v);
    }
  }

  lemma SmallWord(v: nat)
    requires v > 0 && FinalSize(v) <= 3
    ensures FinalWord(v) == Shl(v, 8 * (3 - FinalSize(v)))
  {
    if Mantissa(v) >= 0x80_0000 {
      var k := 8 * (2 - Bytes(v));
      ShlTwice(v, k, 8);
      ShrEight(Mantissa(v));
      ExactBack(Shl(v, k), 8);
    }
  }

  /** The value of a canonical small compact, shifted back, is its mantissa. */
  lemma NothingCutOff(v: nat, size: nat, word: nat)
    requires CanonicalParts(size, word) && size <= 3 && v == Scaled(size, word)
    ensures Shl(v, 8 * (3 - size)) == word
  {
    ShrEight(word);
    ShrSixteen(word);
    ShlEight(v);
    ShlSixteen(v);
  }

  /** Size and mantissa of a value determine its compact. */
  lemma PartsDecide(v: nat, size: nat, word: nat)
    requires v > 0 && 0x8000 <= word < 0x80_0000
    requires if word >= 0x1_0000 then Bytes(v) == size && Mantissa(v) == word
             else Bytes(v) + 1 == size && Mantissa(v) == 256 * word
    ensures FinalSize(v) == size && FinalWord(v) == word
  {
  }

  /** A value whose mantissa takes three bytes of it. */
  lemma ThreeBytes(v: nat, size: nat, word: nat)
    requires size > 0 && 0x1_0000 <= word < 0x100_0000
    requires if size <= 3 then Shl(v, 8 * (3 - size)) == word else v == Shl(word, 8 * (size - 3))
    ensures v > 0 && Bytes(v) == size && Mantissa(v) == word
  {
    Literals();
    if size <= 3 {
      ShiftedBack(v, 8 * (3 - size), word, 8 * (size - 1), 8 * size);
      BytesIs(v, size);
    } else {
      var k := 8 * (size - 3);
      ShlBetween(word, k, 16, 24);
      ShlPositive(16 + k);
      BytesIs(v, size);
      ExactBack(word, k);
    }
  }

  lemma ShiftedBack(v: nat, k: nat, word: nat, lo: nat, hi: nat)
    requires Shl(v, k) == word && Shl(1, lo + k) <= word < Shl(1, hi + k)
    ensures v > 0 && Shl(1, lo) <= v < Shl(1, hi)
  {
    ShrBetween(word, k, lo, hi);
    ExactBack(v, k);
    ShlPositive(lo);
  }

  /** The value of canonical parts has these parts. */
  lemma PartsComeBack(v: nat, size: nat, word: nat)
    requires CanonicalParts(size, word) && v == Scaled(size, word)
    ensures v > 0 && FinalSize(v) == size && FinalWord(v) == word
  {
    if size <= 3 {
      NothingCutOff(v, size, word);
    }
    if word >= 0x1_0000 {
      ThreeBytes(v, size, word);
    } else {
      OneByteMore(v, size, word);
      ThreeBytes(v, size - 1, 256 * word);
    }
    PartsDecide(v, size, word);
  }

  lemma JoinedOf(c: nat)
    requires Word(c) != 0
    ensures c == Joined(Size(c), Word(c), Sign(c))
  {
    var high := c / 0x80_0000;
    assert c == 0x80_0000 * high + Word(c);
    HalvedSize(c, high, Word(c));
  }

  lemma HalvedSize(c: nat, high: nat, word: nat)
    requires c == 0x80_0000 * high + word && word < 0x80_0000
    ensures c / 0x100_0000 == high / 2
  {
    assert high == 2 * (high / 2) + high % 2;
    assert c == 0x100_0000 * (high / 2) + (0x80_0000 * (high % 2) + word);
  }

  /** A canonical compact is the compact of its value. */
  lemma CanonicalComesBack(c: nat)
    requires Canonical(c)
    ensures CompactOf(Meaning(c), Sign(c) && Meaning(c) != 0) == c
  {
    if c == 0 {
      ZeroShifts(24);
    } else {
      PartsComeBack(Meaning(c), Size(c), Word(c));
      CompactParts(Meaning(c), Sign(c));
      JoinedOf(c);
    }
  }

  lemma OneByteMore(v: nat, size: nat, word: nat)
    requires size > 1
    requires if size <= 3 then Shl(v, 8 * (3 - size)) == word else v == Shl(word, 8 * (size - 3))
    ensures if size <= 4 then Shl(v, 8 * (4 - size)) == 256 * word else v == Shl(256 * word, 8 * (size - 4))
  {
    ShlEight(word);
    if size <= 3 {
      ShlTwice(v, 8 * (3 - size), 8);
    } else if size > 4 {
      ShlTwice(word, 8, 8 * (size - 4));
    }
  }

  lemma WrapsBelow(x: nat, v: nat)
    requires Wraps(x, v, 8) && x < Modulus(8)
    ensures v == x
  {
    WrapsIsMod(x, v, 8);
    SmallMod(x, Modulus(8));
  }

  lemma SmallMod(x: nat, m: nat)
    requires x < m
    ensures x % m == x
  {
  }

  /** A compact that means something and does not come back: 0x1200, written with a needless zero byte. */
  lemma NotCanonical()
    ensures Meaning(0x0400_0012) == 0x1200 && CompactOf(0x1200, false) == 0x0212_0000 && !Canonical(0x0400_0012)
  {
    ShlEight(0x12);
    ShlEight(0x1200);
    Literals();
    BytesIs(0x1200, 2);
  }

  /** Four compacts of the unit tests: signed ones, and one that makes room for the sign bit. */
  lemma Published()
    ensures Meaning(0x01FE_DCBA) == 0x7E && Sign(0x01FE_DCBA)
    ensures Meaning(0x0492_3456) == 0x1234_5600 && Sign(0x0492_3456) && !Sign(0x0500_9234)
    ensures CompactOf(0x80, false) == 0x0200_8000
    ensures CompactOf(0x1234_5600, true) == 0x0492_3456
  {
    ShlEight(0x7E);
    ShrShl(0x7E, 0xDCBA, 16);
    ShlTwice(0x7E, 8, 8);
    ShlEight(0x7E00);
    Literals();
    ShlEight(0x12_3456);
    ShlEight(0x80);
    ShlEight(0x8000);
    ShlTwice(0x80, 8, 8);
    BytesIs(0x80, 1);
    BytesIs(0x1234_5600, 4);
    ShlEight(0x100_0000);
    ShlTwice(1, 24, 8);
    ShrEight(0x1234_5600);
  }

  /** SetCompact and then GetCompact give a compact back if and only if it is canonical and its
      number fits 256 bits. */
  lemma ComesBackIff(c: nat, v: nat)
    requires Wraps(Meaning(c), v, 8)
    ensures CompactOf(v, Sign(c) && Meaning(c) != 0) == c <==> Canonical(c) && Meaning(c) < Modulus(8)
  {
    var negative := Sign(c) && Meaning(c) != 0;
    MadeIsCanonical(v, negative);
    RoundTrip(v, negative);
    if Meaning(c) < Modulus(8) {
      WrapsBelow(Meaning(c), v);
      if Canonical(c) {
        CanonicalComesBack(c);
      }
    }
  }

  // ----- the two operations -----------------------------------------------------------------------------------------------

  /** operator=(uint64_t) */
  method SetWord(pn: array<nat>, w: nat)
    requires pn.Length >= 2 && w < 0x1_0000_0000_0000_0000
    modifies pn
    ensures AreLimbs(pn[..]) && Value(pn[..]) == w
  {
    SetZero(pn);
    pn[0] := w % 0x1_0000_0000;
    pn[1] := w / 0x1_0000_0000;
    TwoLimbs(pn[..]);
    ValueZeros(pn[..][2..]);
  }

  lemma TwoLimbs(s: seq<nat>)
    requires |s| >= 2
    ensures Value(s) == s[0] + 0x1_0000_0000 * (s[1] + 0x1_0000_0000 * Value(s[2..]))
  {
    assert s[1..][1..] == s[2..] && s[1..][0] == s[1];
  }

  /** The two low limbs; the source joins them with |. */
  method GetLow64(pn: array<nat>) returns (w: nat)
    requires pn.Length >= 2 && AreLimbs(pn[..])
    ensures Value(pn[..]) < 0x1_0000_0000_0000_0000 ==> w == Value(pn[..])
  {
    TwoLimbs(pn[..]);
    Shl32(1);
    Shl32(pn[1]);
    OrIsSum(32, pn[0], pn[1]);
    w := Or(pn[0], Shl(pn[1], 32));
  }

  /** The value, and both flags exactly: overflow means that the number does not fit 256 bits. */
  method SetCompact(pn: array<nat>, c: nat) returns (negative: bool, overflow: bool)
    requires pn.Length == 8 && c < 0x1_0000_0000
    modifies pn
    ensures AreLimbs(pn[..]) && Wraps(Meaning(c), Value(pn[..]), 8)
    ensures overflow <==> Meaning(c) >= Modulus(8)
    ensures negative <==> Sign(c) && Meaning(c) != 0
  {
    var size := c / 0x100_0000;
    var word := SetMagnitude(pn, size, c % 0x80_0000);
    negative := word != 0 && c / 0x80_0000 % 2 == 1;
    overflow := word != 0 && (size > 34 || (word > 0xff && size > 33) || (word > 0xffff && size > 32));
  }

  /** The assignment and shift of SetCompact; the word is left as the flags are computed from it. */
  method SetMagnitude(pn: array<nat>, size: nat, mantissa: nat) returns (word: nat)
    requires pn.Length == 8 && mantissa < 0x80_0000
    modifies pn
    ensures AreLimbs(pn[..]) && Wraps(Scaled(size, mantissa), Value(pn[..]), 8)
    ensures Overflows(size, word) <==> Scaled(size, mantissa) >= Modulus(8)
    ensures word != 0 <==> Scaled(size, mantissa) != 0
  {
    Modulus256();
    if size <= 3 {
      SmallMeaning(mantissa, 8 * (3 - size));
      word := Shr(mantissa, 8 * (3 - size));
      SetWord(pn, word);
      Unwrapped(word, 8);
    } else {
      word := mantissa;
      OverflowExact(size, word);
      LargeMeaning(word, 8 * (size - 3));
      SetWord(pn, word);
      ShiftLeft(pn, 8 * (size - 3));
    }
  }

  lemma SmallMeaning(word: nat, k: nat)
    requires word < 0x80_0000
    ensures Shr(word, k) < 0x80_0000 && Shr(word, k) < Shl(1, 256)
  {
    ShrSplits(word, k);
    GrowsUp(Shr(word, k), k);
    Literals();
    ShlLonger(24, 256);
  }

  lemma {:induction false} GrowsUp(x: nat, k: nat)
    ensures x <= Shl(x, k)
    decreases k
  {
    if k > 0 {
      GrowsUp(x, k - 1);
    }
  }

  lemma LargeMeaning(word: nat, k: nat)
    ensures Shl(word, k) != 0 <==> word != 0
  {
    GrowsUp(word, k);
    ZeroShifts(k);
  }

  lemma Unwrapped(v: nat, n: nat)
    requires v < Modulus(n)
    ensures Wraps(v, v, n)
  {
    LiftIs(0, n);
    assert v == v + Lift(0, n);
  }

  /** The compact of a number. */
  method GetCompact(pn: array<nat>, fNegative: bool) returns (c: nat)
    requires pn.Length == 8 && AreLimbs(pn[..])
    ensures c == CompactOf(Value(pn[..]), fNegative)
  {
    ghost var v := Value(pn[..]);
    var bits := BitLength(pn);
    LengthUnique(v, bits);
    var size := (bits + 7) / 8;
    var word := GetMantissa(pn, size);
    LowFits(v);
    c := JoinCompact(size, word, fNegative);
  }

  /** The last part of GetCompact; both of its assertions hold. */
  method JoinCompact(size0: nat, word0: nat, fNegative: bool) returns (c: nat)
    requires word0 < 0x100_0000 && size0 < 255
    ensures c == if word0 < 0x80_0000 then Joined(size0, word0, fNegative) else Joined(size0 + 1, word0 / 256, fNegative)
  {
    var size, word := size0, word0;
    if word / 0x80_0000 % 2 == 1 {
      word := word / 256;
      size := size + 1;
    }
    assert word < 0x80_0000;
    assert size < 256;
    c := word + 0x100_0000 * size + (if fNegative && word % 0x80_0000 != 0 then 0x80_0000 else 0);
  }

  method GetMantissa(pn: array<nat>, size: nat) returns (word: nat)
    requires pn.Length == 8 && AreLimbs(pn[..]) && size == Bytes(Value(pn[..]))
    ensures word == Mantissa(Value(pn[..]))
  {
    ghost var v := Value(pn[..]);
    LowFits(v);
    if size <= 3 {
      var low := GetLow64(pn);
      word := Shl(low, 8 * (3 - size));
    } else {
      var bn := CopyOf(pn);
      ShiftRight(bn, 8 * (size - 3));
      word := GetLow64(bn);
    }
  }

  lemma LowFits(v: nat)
    ensures Bytes(v) <= 3 ==> v < 0x100_0000
    ensures Mantissa(v) < 0x100_0000
  {
    if v > 0 {
      MantissaBounds(v);
      if Bytes(v) <= 3 {
        GrowsUp(v, 8 * (3 - Bytes(v)));
      }
    } else {
      ZeroShifts(24);
    }
  }
}
