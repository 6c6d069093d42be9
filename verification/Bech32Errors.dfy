/** The Bech32 checksum detects up to three errors within 1023 symbols: three consecutive powers of
    z are roots of its generator, so that a clear register makes three sums over the errors vanish. */
module Bech32Errors {
  import opened Bits
  import opened Bech32Checksum
  import opened Bech32Field
  import opened Bech32Roots
  import opened Bech32

  /** e with all places but i cleared. */
  ghost function Only(e: seq<nat>, i: nat): (r: seq<nat>)
    requires i < |e|
    ensures |r| == |e| && forall j :: 0 <= j < |e| ==> r[j] == if j == i then e[i] else 0
  {
    seq(|e|, j requires 0 <= j < |e| => if j == i then e[i] else 0)
  }

  lemma {:induction false} OnlyValue(w: nat, e: seq<nat>, i: nat)
    requires i < |e|
    ensures ValueAt(w, Only(e, i)) == Jump(w, |e| - 1 - i, Embedded(e[i]))
    decreases |e|
  {
    var n := |e| - 1;
    if i == n {
      ValueOfZeros(w, Only(e, i)[..n]);
      PowerOfZero(w);
      PlusZero(Embedded(e[i]));
    } else {
      OnlyValue(w, e[..n], i);
      assert Only(e, i)[..n] == Only(e[..n], i);
      ScaledNothing(5);
      PlusZero(Jump(w, n - i, Embedded(e[i])));
    }
  }

  ghost predicate ZeroBut(e: seq<nat>, i: nat, j: nat, k: nat) {
    && i < |e| && j < |e| && k < |e| && i != j && i != k && j != k
    && forall l :: 0 <= l < |e| && l != i && l != j && l != k ==> e[l] == 0
  }

  lemma Decomposed(e: seq<nat>, i: nat, j: nat, k: nat)
    requires ZeroBut(e, i, j, k)
    ensures e == Difference(Difference(Only(e, i), Only(e, j)), Only(e, k))
  {
    var two := Difference(Only(e, i), Only(e, j));
    forall l | 0 <= l < |e| ensures Xor(two[l], Only(e, k)[l]) == e[l] {
      XorZero(e[l]);
      XorZero(0);
    }
  }

  /** What the symbol at place i adds to the value at z^w. */
  ghost function Term(w: nat, e: seq<nat>, i: nat): Element
    requires i < |e|
  {
    Jump(w, |e| - 1 - i, Embedded(e[i]))
  }

  lemma ThreeTerms(w: nat, e: seq<nat>, i: nat, j: nat, k: nat)
    requires ZeroBut(e, i, j, k)
    ensures ValueAt(w, e) == Three(Term(w, e, i), Term(w, e, j), Term(w, e, k))
  {
    Decomposed(e, i, j, k);
    ThreeValues(w, Only(e, i), Only(e, j), Only(e, k));
    OnlyValue(w, e, i);
    OnlyValue(w, e, j);
    OnlyValue(w, e, k);
  }

  lemma ThreeValues(w: nat, u: seq<nat>, v: seq<nat>, x: seq<nat>)
    requires |u| == |v| == |x|
    ensures ValueAt(w, Difference(Difference(u, v), x)) == Three(ValueAt(w, u), ValueAt(w, v), ValueAt(w, x))
  {
    ValueDifference(w, u, v);
    ValueDifference(w, Difference(u, v), x);
  }

  /** From one root to the next, a term is multiplied by a power of z that depends on its place only. */
  lemma NextTerm(w: nat, e: seq<nat>, i: nat)
    requires i < |e|
    ensures Term(w + 1, e, i) == Power(|e| - 1 - i, Term(w, e, i))
  {
    var m, x := |e| - 1 - i, Embedded(e[i]);
    JumpIs(w, m, x);
    JumpIs(w + 1, m, x);
    PowerSum(m, w * m, x);
    assert (w + 1) * m == m + w * m;
  }

  lemma TermZero(w: nat, e: seq<nat>, i: nat)
    requires i < |e| && e[i] < 32 && Term(w, e, i) == ZERO
    ensures e[i] == 0
  {
    var m := |e| - 1 - i;
    JumpIs(w, m, Embedded(e[i]));
    PowerOfZero(w * m);
    PowerInjective(w * m, Embedded(e[i]), ZERO);
    EmbeddedNonZero(e[i]);
  }

  ghost predicate Near(i: nat, j: nat) { i < j + 1023 && j < i + 1023 }

  ghost predicate AllNear(i: nat, j: nat, k: nat) { Near(i, j) && Near(i, k) && Near(j, k) }

  /** If at most three near symbols are not zero and the register ends clear, there is no error. */
  lemma ClearThree(e: seq<nat>, i: nat, j: nat, k: nat)
    requires AllSmall(e) && ZeroBut(e, i, j, k) && AllNear(i, j, k) && Fed(0, e) == 0
    ensures AllZero(e)
  {
    Roots();
    TermsVanish(24, e, i, j, k);
    TermsVanish(25, e, i, j, k);
    TermsVanish(26, e, i, j, k);
    TermsZero(e, i, j, k);
    TermZero(24, e, i);
    TermZero(24, e, j);
    TermZero(24, e, k);
  }

  lemma TermsZero(e: seq<nat>, i: nat, j: nat, k: nat)
    requires i < |e| && j < |e| && k < |e| && i != j && i != k && j != k && AllNear(i, j, k)
    requires Three(Term(24, e, i), Term(24, e, j), Term(24, e, k)) == ZERO
    requires Three(Term(25, e, i), Term(25, e, j), Term(25, e, k)) == ZERO
    requires Three(Term(26, e, i), Term(26, e, j), Term(26, e, k)) == ZERO
    ensures Term(24, e, i) == Term(24, e, j) == Term(24, e, k) == ZERO
  {
    TermsFollow(e, i);
    TermsFollow(e, j);
    TermsFollow(e, k);
    var n := |e| - 1;
    Vandermonde(n - i, n - j, n - k, Term(24, e, i), Term(24, e, j), Term(24, e, k));
  }

  lemma TermsVanish(w: nat, e: seq<nat>, i: nat, j: nat, k: nat)
    requires IsRoot(w) && AllSmall(e) && ZeroBut(e, i, j, k) && Fed(0, e) == 0
    ensures Three(Term(w, e, i), Term(w, e, j), Term(w, e, k)) == ZERO
  {
    ClearAtRoot(w, e);
    ThreeTerms(w, e, i, j, k);
  }

  lemma TermsFollow(e: seq<nat>, i: nat)
    requires i < |e|
    ensures Term(25, e, i) == Power(|e| - 1 - i, Term(24, e, i))
    ensures Term(26, e, i) == Power(|e| - 1 - i, Power(|e| - 1 - i, Term(24, e, i)))
  {
    NextTerm(24, e, i);
    NextTerm(25, e, i);
  }

  // ----- any set of up to three places -----------------------------------------------------------------------

  /** The places at which two sequences differ. */
  ghost function Places<T(!new)>(v: seq<T>, w: seq<T>): set<nat>
    requires |v| == |w|
  {
    set i: nat | i < |v| && v[i] != w[i]
  }

  /** A place in [lo, lo + 3) other than i and j. */
  function Spare(lo: nat, i: nat, j: nat): (l: nat)
    ensures lo <= l < lo + 3 && l != i && l != j
  {
    if lo != i && lo != j then lo else if lo + 1 != i && lo + 1 != j then lo + 1 else lo + 2
  }

  lemma PickTwo(d: set<nat>, i: nat, lo: nat, hi: nat) returns (j: nat, k: nat)
    requires i in d && |d| <= 3 && lo + 3 <= hi && forall l :: l in d ==> lo <= l < hi
    ensures lo <= j < hi && lo <= k < hi && i != j && i != k && j != k && d <= {i, j, k}
  {
    var rest := d - {i};
    j := Spare(lo, i, i);
    if rest != {} {
      j :| j in rest;
    }
    var last := rest - {j};
    k := Spare(lo, i, j);
    if last != {} {
      k :| k in last;
      assert |last - {k}| == 0;
    }
  }

  /** Up to three errors, all within 1023 symbols, leave the register changed. */
  lemma ThreeErrorsShow(e: seq<nat>, d: set<nat>, lo: nat)
    requires AllSmall(e) && d == (set i: nat | i < |e| && e[i] != 0) && 1 <= |d| <= 3
    requires forall i :: i in d ==> lo <= i < lo + 1023
    ensures Fed(0, e) != 0
  {
    forall l | 0 <= l < |e| ensures e[l] == 0 || l in d {
    }
    var i :| i in d;
    var hi := if lo + 1023 <= |e| then lo + 1023 else |e|;
    if hi < lo + 3 {
      BurstInside(e, lo, i);
    } else {
      var j, k := PickTwo(d, i, lo, hi);
      if Fed(0, e) == 0 {
        ClearThree(e, i, j, k);
      }
    }
  }

  /** Two data parts of one length, different at up to three places within 1023 symbols of each
      other, leave the register different, whatever was read before them. */
  lemma ThreeErrorsDetected(c: nat, v: seq<nat>, w: seq<nat>, lo: nat)
    requires |v| == |w| && AllSmall(v) && AllSmall(w) && 1 <= |Places(v, w)| <= 3
    requires forall i :: i in Places(v, w) ==> lo <= i < lo + 1023
    ensures Fed(c, v) != Fed(c, w)
  {
    DifferenceOf(v, w);
    var e := Difference(v, w);
    assert Places(v, w) == set i: nat | i < |e| && e[i] != 0;
    ThreeErrorsShow(e, Places(v, w), lo);
    FedLinear(c, c, v, w);
    XorZero(c);
    XorApart(Fed(c, v), Fed(c, w));
  }

  /** The checksum of one prefix does not verify for both. */
  lemma NotBothVerify(hrp: string, v: seq<nat>, w: seq<nat>, lo: nat)
    requires |v| == |w| && AllSmall(v) && AllSmall(w) && 1 <= |Places(v, w)| <= 3
    requires forall i :: i in Places(v, w) ==> lo <= i < lo + 1023
    ensures !(Verifies(hrp, v) && Verifies(hrp, w))
  {
    FedConcat(1, Expanded(hrp), v);
    FedConcat(1, Expanded(hrp), w);
    ThreeErrorsDetected(Fed(1, Expanded(hrp)), v, w, lo);
  }

  // ----- strings ------------------------------------------------------------------------------------------------

  /** Symbols are equal exactly if their characters are, up to case. */
  lemma SamePlaces(s: string, t: string)
    requires |s| == |t| && AllSymbols(s) && AllSymbols(t)
    ensures Places(Values(s), Values(t)) == Places(Lowered(s), Lowered(t))
  {
    forall i: nat | i < |s| ensures ValueOf(s[i]) == ValueOf(t[i]) <==> LowerCase(s[i]) == LowerCase(t[i]) {
      PlacesInverse(LowerCase(s[i]));
      PlacesInverse(LowerCase(t[i]));
    }
  }

  /** A string that decodes does not decode any more once one to three of its data characters are
      replaced, by characters other than the separator and other than the same letter in the other
      case. */
  lemma DamagedDoesNotDecode(str: string, bad: string, pos: nat)
    requires Decoded(str) != Failed() && LastOne(str) == pos
    requires |bad| == |str| && bad[..pos + 1] == str[..pos + 1] && LastOne(bad) == pos
    requires 1 <= |Places(Lowered(str[pos + 1..]), Lowered(bad[pos + 1..]))| <= 3
    ensures Decoded(bad) == Failed()
  {
    var hrp, s, t := Lowered(str[..pos]), str[pos + 1..], bad[pos + 1..];
    assert bad[..pos] == bad[..pos + 1][..pos] == str[..pos];
    TailOf(str, pos, hrp, s);
    TailOf(bad, pos, hrp, t);
    if Decoded(bad) != Failed() {
      NotBothChecked(hrp, s, t);
    }
  }

  lemma TailOf(str: string, pos: nat, hrp: string, s: string)
    requires LastOne(str) == pos && hrp == Lowered(str[..pos]) && s == str[pos + 1..]
    ensures Decoded(str) != Failed() ==>
      6 <= |s| <= 1023 && AllSymbols(s) && Checked(hrp, Values(s)) != Failed()
  {
  }

  lemma NotBothChecked(hrp: string, s: string, t: string)
    requires 6 <= |s| == |t| <= 1023 && AllSymbols(s) && AllSymbols(t) && 1 <= |Places(Lowered(s), Lowered(t))| <= 3
    requires Checked(hrp, Values(s)) != Failed()
    ensures Checked(hrp, Values(t)) == Failed()
  {
    SamePlaces(s, t);
    ValuesBack(s);
    ValuesBack(t);
    NotBothVerify(hrp, Values(s), Values(t), 0);
  }
}
