/** Bech32 strings: encoding, decoding, and exactly which strings decode to what. */
module Bech32 {
  import opened Bits
  import opened Bech32Checksum

  // ----- characters --------------------------------------------------------------------------------

  /** The character set for encoding. */
  function CharOf(v: nat): char
    requires v < 32
  {
    if v == 0 then 'q' else if v == 1 then 'p' else if v == 2 then 'z' else if v == 3 then 'r'
    else if v == 4 then 'y' else if v == 5 then '9' else if v == 6 then 'x' else if v == 7 then '8'
    else if v == 8 then 'g' else if v == 9 then 'f' else if v == 10 then '2' else if v == 11 then 't'
    else if v == 12 then 'v' else if v == 13 then 'd' else if v == 14 then 'w' else if v == 15 then '0'
    else if v == 16 then 's' else if v == 17 then '3' else if v == 18 then 'j' else if v == 19 then 'n'
    else if v == 20 then '5' else if v == 21 then '4' else if v == 22 then 'k' else if v == 23 then 'h'
    else if v == 24 then 'c' else if v == 25 then 'e' else if v == 26 then '6' else if v == 27 then 'm'
    else if v == 28 then 'u' else if v == 29 then 'a' else if v == 30 then '7' else 'l'
  }

  /** The place of a lower-case character in the set, or -1. */
  function PlaceOf(c: char): int {
    if c == 'q' then 0 else if c == 'p' then 1 else if c == 'z' then 2 else if c == 'r' then 3
    else if c == 'y' then 4 else if c == '9' then 5 else if c == 'x' then 6 else if c == '8' then 7
    else if c == 'g' then 8 else if c == 'f' then 9 else if c == '2' then 10 else if c == 't' then 11
    else if c == 'v' then 12 else if c == 'd' then 13 else if c == 'w' then 14 else if c == '0' then 15
    else if c == 's' then 16 else if c == '3' then 17 else if c == 'j' then 18 else if c == 'n' then 19
    else if c == '5' then 20 else if c == '4' then 21 else if c == 'k' then 22 else if c == 'h' then 23
    else if c == 'c' then 24 else if c == 'e' then 25 else if c == '6' then 26 else if c == 'm' then 27
    else if c == 'u' then 28 else if c == 'a' then 29 else if c == '7' then 30 else if c == 'l' then 31 else -1
  }

  function LowerCase(c: char): char {
    if 'A' <= c <= 'Z' then (c as int + 32) as char else c
  }

  /** The character set for decoding: a letter has one entry in either case. */
  function ValueOf(c: char): int { PlaceOf(LowerCase(c)) }

  lemma CharsInverse(v: nat)
    requires v < 32
    ensures PlaceOf(CharOf(v)) == v
    ensures 33 <= CharOf(v) as int <= 126 && !('A' <= CharOf(v) <= 'Z') && CharOf(v) != '1'
  {
  }

  lemma PlacesInverse(c: char)
    requires PlaceOf(c) != -1
    ensures 0 <= PlaceOf(c) < 32 && CharOf(PlaceOf(c)) == c
  {
  }

  const CHARSET := "qpzry9x8gf2tvdw0s3jn54khce6mua7l"

  /** The table is the character set of BIP 173. */
  lemma CharsetIs(v: nat)
    requires v < 32
    ensures CharOf(v) == CHARSET[v] && PlaceOf(CHARSET[v]) == v
  {
  }

  function Symbols(vs: seq<nat>): (s: string)
    requires AllSmall(vs)
    ensures |s| == |vs| && forall i :: 0 <= i < |s| ==> s[i] == CharOf(vs[i])
  {
    seq(|vs|, i requires 0 <= i < |vs| => CharOf(vs[i]))
  }

  predicate AllSymbols(s: string) { forall i :: 0 <= i < |s| ==> ValueOf(s[i]) >= 0 }

  function Values(s: string): (vs: seq<nat>)
    requires AllSymbols(s)
    ensures |vs| == |s| && forall i :: 0 <= i < |s| ==> vs[i] == ValueOf(s[i])
  {
    seq(|s|, i requires 0 <= i < |s| => ValueOf(s[i]))
  }

  function Lowered(s: string): (r: string)
    ensures |r| == |s| && forall i :: 0 <= i < |s| ==> r[i] == LowerCase(s[i])
  {
    seq(|s|, i requires 0 <= i < |s| => LowerCase(s[i]))
  }

  predicate Printable(s: string) { forall i :: 0 <= i < |s| ==> 33 <= s[i] as int <= 126 }
  predicate HasLower(s: string) { exists i :: 0 <= i < |s| && 'a' <= s[i] <= 'z' }
  predicate HasUpper(s: string) { exists i :: 0 <= i < |s| && 'A' <= s[i] <= 'Z' }

  /** The last place of the separator, or -1. */
  function LastOne(s: string): (pos: int)
    ensures -1 <= pos < |s| && (pos >= 0 ==> s[pos] == '1')
    ensures forall i :: pos < i < |s| ==> s[i] != '1'
  {
    if s == [] then -1 else if s[|s| - 1] == '1' then |s| - 1 else LastOne(s[..|s| - 1])
  }

  lemma {:induction false} LastOneIs(s: string, pos: int)
    requires -1 <= pos < |s| && (pos >= 0 ==> s[pos] == '1') && forall i :: pos < i < |s| ==> s[i] != '1'
    ensures LastOne(s) == pos
  {
  }

  // ----- the checksum of a string --------------------------------------------------------------------

  function High(hrp: string): (r: seq<nat>)
    ensures |r| == |hrp| && forall i :: 0 <= i < |r| ==> r[i] == hrp[i] as int / 32
  {
    seq(|hrp|, i requires 0 <= i < |hrp| => hrp[i] as int / 32)
  }

  function Low(hrp: string): (r: seq<nat>)
    ensures |r| == |hrp| && forall i :: 0 <= i < |r| ==> r[i] == hrp[i] as int % 32
  {
    seq(|hrp|, i requires 0 <= i < |hrp| => hrp[i] as int % 32)
  }

  function Expanded(hrp: string): seq<nat> { High(hrp) + [0] + Low(hrp) }

  predicate Verifies(hrp: string, values: seq<nat>) {
    Fed(1, Expanded(hrp) + values) == 1
  }

  /** The last n groups of a word. */
  function Groups(m: nat, n: nat): (r: seq<nat>)
    ensures |r| == n && AllSmall(r)
    decreases n, m
  {
    if n == 0 then [] else Groups(m / 32, n - 1) + [m % 32]
  }

  function Checksum(hrp: string, values: seq<nat>): (r: seq<nat>)
    ensures |r| == 6 && AllSmall(r)
  {
    Groups(Xor(Fed(1, Expanded(hrp) + values + Zeros(6)), 1), 6)
  }

  /** Groups are the digits of a word. */
  lemma {:induction false} GroupsPacked(m: nat, p: seq<nat>)
    requires m < Room(|p|) && AllSmall(p)
    ensures p == Groups(m, |p|) <==> Packed(p) == m
  {
    if p != [] {
      var n := |p| - 1;
      GroupsPacked(m / 32, p[..n]);
      assert p == p[..n] + [p[n]];
      var g := Groups(m / 32, n);
      assert (g + [m % 32])[..n] == g;
    }
  }

  lemma XorMoves(r: nat, x: nat, m: nat)
    ensures Xor(r, x) == m <==> x == Xor(r, m)
  {
    XorAssociates(r, r, x);
    XorAssociates(r, r, m);
    XorZero(r);
    XorZero(x);
    XorZero(m);
  }

  /** Six further symbols are added to what six zeros would have left. */
  lemma LastSix(c: nat, chk: seq<nat>)
    requires |chk| == 6 && AllSmall(chk)
    ensures Fed(c, chk) == Xor(Fed(c, Zeros(6)), Packed(chk))
  {
    FedLinear(c, 0, Zeros(6), chk);
    XorZero(c);
    forall i | 0 <= i < 6 ensures Xor(0, chk[i]) == chk[i] {
      XorZero(chk[i]);
    }
    assert Difference(Zeros(6), chk) == chk;
    SixPacked(chk);
  }

  lemma AfterSix(pre: seq<nat>, chk: seq<nat>)
    requires |chk| == 6 && AllSmall(chk)
    ensures Fed(1, pre + chk) == Xor(Fed(1, pre + Zeros(6)), Packed(chk))
  {
    FedConcat(1, pre, Zeros(6));
    FedConcat(1, pre, chk);
    LastSix(Fed(1, pre), chk);
  }

  lemma WordFits(hrp: string, values: seq<nat>)
    requires AllSmall(values)
    ensures Xor(Fed(1, Expanded(hrp) + values + Zeros(6)), 1) < Room(6)
  {
    FedFits(1, Expanded(hrp) + values + Zeros(6));
    XorFits(Fed(1, Expanded(hrp) + values + Zeros(6)), 1);
    RoomSix();
  }

  lemma RoomSix()
    ensures Room(6) == 0x40000000
  {
    assert Room(2) == 0x400;
    assert Room(4) == 0x100000;
  }

  /** The checksum verifies, and it is the only one that does. */
  lemma ChecksumExact(hrp: string, values: seq<nat>, chk: seq<nat>)
    requires AllSmall(values) && |chk| == 6 && AllSmall(chk)
    ensures Verifies(hrp, values + chk) <==> chk == Checksum(hrp, values)
  {
    var pre := Expanded(hrp) + values;
    assert Expanded(hrp) + (values + chk) == pre + chk;
    AfterSix(pre, chk);
    WordFits(hrp, values);
    var r := Fed(1, pre + Zeros(6));
    XorMoves(r, Packed(chk), 1);
    GroupsPacked(Xor(r, 1), chk);
  }

  /** Two different data parts of one length that differ only within six consecutive symbols do
      not both verify. */
  lemma SixErrorsDetected(hrp: string, v: seq<nat>, w: seq<nat>, k: nat)
    requires |v| == |w| && AllSmall(v) && AllSmall(w) && v != w && DifferWithinSix(v, w, k)
    ensures !(Verifies(hrp, v) && Verifies(hrp, w))
  {
    FedConcat(1, Expanded(hrp), v);
    FedConcat(1, Expanded(hrp), w);
    BurstDetected(Fed(1, Expanded(hrp)), v, w, k);
  }

  // ----- encoding and decoding ------------------------------------------------------------------------

  function Encoded(hrp: string, values: seq<nat>): string {
    if !AllSmall(values) then "" else hrp + "1" + Symbols(values + Checksum(hrp, values))
  }

  function Failed(): (string, seq<nat>) { ("", []) }

  /** Neither unprintable characters nor both cases. */
  predicate OneCase(str: string) { Printable(str) && !(HasLower(str) && HasUpper(str)) }

  /** A separator with something before it and at least six symbols after it. */
  predicate Splits(str: string) {
    |str| <= 1023 && 0 < LastOne(str) && LastOne(str) + 7 <= |str| && AllSymbols(str[LastOne(str) + 1..])
  }

  function Decoded(str: string): (string, seq<nat>) {
    if !OneCase(str) || !Splits(str) then Failed()
    else Checked(Lowered(str[..LastOne(str)]), Values(str[LastOne(str) + 1..]))
  }

  /** Strip the checksum if it verifies. */
  function Checked(hrp: string, values: seq<nat>): (string, seq<nat>)
    requires |values| >= 6
  {
    if Verifies(hrp, values) then (hrp, values[..|values| - 6]) else Failed()
  }

  lemma SymbolsBack(vs: seq<nat>)
    requires AllSmall(vs)
    ensures AllSymbols(Symbols(vs)) && Values(Symbols(vs)) == vs
    ensures Printable(Symbols(vs)) && !HasUpper(Symbols(vs)) && Lowered(Symbols(vs)) == Symbols(vs)
    ensures forall i :: 0 <= i < |vs| ==> Symbols(vs)[i] != '1'
  {
    forall i | 0 <= i < |vs| ensures PlaceOf(CharOf(vs[i])) == vs[i] && LowerCase(CharOf(vs[i])) == CharOf(vs[i])
      && 33 <= CharOf(vs[i]) as int <= 126 && !('A' <= CharOf(vs[i]) <= 'Z') && CharOf(vs[i]) != '1'
    {
      CharsInverse(vs[i]);
    }
  }

  lemma ValuesBack(s: string)
    requires AllSymbols(s)
    ensures AllSmall(Values(s)) && Symbols(Values(s)) == Lowered(s)
  {
    forall i | 0 <= i < |s| ensures 0 <= ValueOf(s[i]) < 32 && CharOf(ValueOf(s[i])) == LowerCase(s[i]) {
      PlacesInverse(LowerCase(s[i]));
    }
  }

  /** How a string of three parts is read. */
  lemma DecodedParts(hrp: string, part: string)
    requires hrp != "" && |part| >= 6 && |hrp| + 1 + |part| <= 1023
    requires OneCase(hrp + "1" + part) && AllSymbols(part) && forall i :: 0 <= i < |part| ==> part[i] != '1'
    ensures Decoded(hrp + "1" + part) == Checked(Lowered(hrp), Values(part))
  {
    Located(hrp, part);
    assert Splits(hrp + "1" + part);
  }

  lemma Located(hrp: string, part: string)
    requires forall i :: 0 <= i < |part| ==> part[i] != '1'
    ensures var str := hrp + "1" + part;
      LastOne(str) == |hrp| && str[..|hrp|] == hrp && str[|hrp| + 1..] == part
  {
    LastOneIs(hrp + "1" + part, |hrp|);
  }

  /** What a readable string consists of. */
  lemma PartsOf(str: string) returns (hrp: string, part: string)
    requires Splits(str)
    ensures hrp != "" && |part| >= 6 && |hrp| + 1 + |part| <= 1023 && str == hrp + "1" + part
    ensures AllSymbols(part) && forall i :: 0 <= i < |part| ==> part[i] != '1'
  {
    var pos := LastOne(str);
    hrp, part := str[..pos], str[pos + 1..];
    assert str == hrp + "1" + part;
  }

  /** Decoding inverts encoding. */
  lemma DecodeEncode(hrp: string, v: seq<nat>)
    requires hrp != "" && Printable(hrp) && !HasUpper(hrp) && AllSmall(v)
    requires |hrp| + 1 + |v| + 6 <= 1023
    ensures Decoded(Encoded(hrp, v)) == (hrp, v)
  {
    var all := v + Checksum(hrp, v);
    var part := Symbols(all);
    SymbolsBack(all);
    ChecksumExact(hrp, v, Checksum(hrp, v));
    OneCaseJoin(hrp, part);
    NothingToLower(hrp);
    DecodedParts(hrp, part);
    assert all[..|all| - 6] == v;
  }

  lemma OneCaseJoin(hrp: string, part: string)
    requires Printable(hrp) && !HasUpper(hrp) && Printable(part) && !HasUpper(part)
    ensures OneCase(hrp + "1" + part) && !HasUpper(hrp + "1" + part)
  {
  }

  lemma NothingToLower(s: string)
    requires !HasUpper(s)
    ensures Lowered(s) == s
  {
  }

  lemma LoweredJoin(hrp: string, part: string)
    ensures Lowered(hrp + "1" + part) == Lowered(hrp) + "1" + Lowered(part)
  {
  }

  lemma EncodedParts(hrp: string, part: string)
    requires |part| >= 6 && AllSymbols(part) && Verifies(hrp, Values(part))
    ensures AllSmall(Values(part)[..|part| - 6])
    ensures Encoded(hrp, Values(part)[..|part| - 6]) == hrp + "1" + Lowered(part)
  {
    ValuesBack(part);
    var v, chk := Values(part)[..|part| - 6], Values(part)[|part| - 6..];
    assert v + chk == Values(part);
    ChecksumExact(hrp, v, chk);
  }

  /** Encoding what was decoded gives the string back, in lower case: the checksum cannot be
      anything else. */
  lemma EncodeDecode(str: string)
    requires Decoded(str) != Failed()
    ensures AllSmall(Decoded(str).1) && Decoded(str).0 != ""
    ensures Encoded(Decoded(str).0, Decoded(str).1) == Lowered(str)
  {
    var hrp, part := PartsOf(str);
    DecodedParts(hrp, part);
    var v := CheckedBack(hrp, part);
    assert Decoded(str) == (Lowered(hrp), v);
  }

  lemma CheckedBack(hrp: string, part: string) returns (v: seq<nat>)
    requires hrp != "" && |part| >= 6 && AllSymbols(part) && Checked(Lowered(hrp), Values(part)) != Failed()
    ensures AllSmall(v) && Checked(Lowered(hrp), Values(part)) == (Lowered(hrp), v)
    ensures Encoded(Lowered(hrp), v) == Lowered(hrp + "1" + part)
  {
    v := Values(part)[..|part| - 6];
    EncodedParts(Lowered(hrp), part);
    LoweredJoin(hrp, part);
  }

  lemma LoweredKeeps(s: string)
    ensures Lowered(Lowered(s)) == Lowered(s) && !HasUpper(Lowered(s))
    ensures Printable(Lowered(s)) <==> Printable(s)
    ensures AllSymbols(Lowered(s)) <==> AllSymbols(s)
    ensures AllSymbols(s) ==> Values(Lowered(s)) == Values(s)
  {
    var low := Lowered(s);
    assert forall i :: 0 <= i < |s| ==> LowerCase(low[i]) == LowerCase(s[i]) && ValueOf(low[i]) == ValueOf(s[i]);
    assert forall i :: 0 <= i < |s| ==> (33 <= low[i] as int <= 126 <==> 33 <= s[i] as int <= 126);
  }

  lemma SplitsLowered(str: string)
    requires Splits(Lowered(str))
    ensures Splits(str)
  {
    var low := Lowered(str);
    LastOneIs(str, LastOne(low));
    assert low[LastOne(low) + 1..] == Lowered(str[LastOne(low) + 1..]);
    LoweredKeeps(str[LastOne(low) + 1..]);
  }

  /** Decoding does not depend on the case in which a string is spelled. */
  lemma CaseDoesNotMatter(str: string)
    requires OneCase(str)
    ensures Decoded(str) == Decoded(Lowered(str))
  {
    LoweredKeeps(str);
    if Splits(str) {
      var hrp, part := PartsOf(str);
      LoweredJoin(hrp, part);
      LoweredKeeps(hrp);
      LoweredKeeps(part);
      DecodedParts(hrp, part);
      DecodedParts(Lowered(hrp), Lowered(part));
    } else if Splits(Lowered(str)) {
      SplitsLowered(str);
    }
  }

  /** Decode accepts exactly the spellings, all in one case, of what Encode produces. */
  lemma DecodesExactly(str: string, hrp: string, v: seq<nat>)
    requires hrp != ""
    ensures Decoded(str) == (hrp, v) <==>
      OneCase(str) && |str| <= 1023 && AllSmall(v) && Lowered(str) == Encoded(hrp, v)
  {
    if Decoded(str) == (hrp, v) {
      EncodeDecode(str);
    } else if OneCase(str) && |str| <= 1023 && AllSmall(v) && Lowered(str) == Encoded(hrp, v) {
      CaseDoesNotMatter(str);
      LoweredKeeps(str);
      PrefixLowered(hrp, Lowered(str));
      DecodeEncode(hrp, v);
    }
  }

  lemma PrefixLowered(hrp: string, s: string)
    requires Printable(s) && !HasUpper(s) && hrp <= s
    ensures Printable(hrp) && !HasUpper(hrp)
  {
    assert forall i :: 0 <= i < |hrp| ==> hrp[i] == s[i];
  }

  // ----- the loops of the source -------------------------------------------------------------------------

  method ExpandHRP(hrp: string) returns (ret: seq<nat>)
    ensures ret == Expanded(hrp) && |ret| == 2 * |hrp| + 1 && ret[|hrp|] == 0
    ensures forall i :: 0 <= i < |hrp| ==> ret[i] == hrp[i] as int / 32 && ret[|hrp| + 1 + i] == hrp[i] as int % 32
  {
    ret := Zeros(2 * |hrp| + 1);
    var i := 0;
    while i < |hrp|
      invariant 0 <= i <= |hrp| && |ret| == 2 * |hrp| + 1 && ret[|hrp|] == 0
      invariant forall j :: 0 <= j < i ==> ret[j] == hrp[j] as int / 32 && ret[|hrp| + 1 + j] == hrp[j] as int % 32
    {
      var c := hrp[i] as int;
      ret := ret[i := c / 32][i + |hrp| + 1 := c % 32];
      i := i + 1;
    }
    IsExpanded(hrp, ret);
  }

  lemma IsExpanded(hrp: string, r: seq<nat>)
    requires |r| == 2 * |hrp| + 1 && r[|hrp|] == 0
    requires forall i :: 0 <= i < |hrp| ==> r[i] == hrp[i] as int / 32 && r[|hrp| + 1 + i] == hrp[i] as int % 32
    ensures r == Expanded(hrp)
  {
    var n := |hrp|;
    forall k | 0 <= k < |r| ensures r[k] == Expanded(hrp)[k] {
      if k > n {
        assert r[n + 1 + (k - n - 1)] == hrp[k - n - 1] as int % 32;
      }
    }
  }

  method CreateChecksum(hrp: string, values: seq<nat>) returns (ret: seq<nat>)
    ensures ret == Checksum(hrp, values)
  {
    var enc := ExpandHRP(hrp);
    var rest := PolyMod(enc + values + Zeros(6));
    ret := SplitGroups(Xor(rest, 1));
  }

  /** The loop of CreateChecksum. */
  method SplitGroups(mod: nat) returns (ret: seq<nat>)
    ensures ret == Groups(mod, 6)
  {
    ret := [];
    var i := 0;
    while i < 6
      invariant 0 <= i <= 6 && ret == Groups(mod, 6)[..i]
    {
      GroupAt(mod, 6, i);
      ret := ret + [Dropped(mod, 5 - i) % 32];
      i := i + 1;
    }
  }

  /** m >> 5 * k */
  function Dropped(m: nat, k: nat): nat
    decreases k, m
  {
    if k == 0 then m else Dropped(m / 32, k - 1)
  }

  lemma {:induction false} GroupAt(m: nat, n: nat, i: nat)
    requires i < n
    ensures Groups(m, n)[i] == Dropped(m, n - 1 - i) % 32
    decreases n
  {
    if i < n - 1 {
      GroupAt(m / 32, n - 1, i);
    }
  }

  lemma SymbolsAppend(vs: seq<nat>, v: nat)
    requires AllSmall(vs) && v < 32
    ensures AllSmall(vs + [v]) && Symbols(vs + [v]) == Symbols(vs) + [CharOf(v)]
  {
  }

  lemma JoinSmall(vs: seq<nat>, ws: seq<nat>)
    ensures AllSmall(vs + ws) <==> AllSmall(vs) && AllSmall(ws)
  {
    assert forall i :: 0 <= i < |vs| ==> vs[i] == (vs + ws)[i];
    assert forall i :: 0 <= i < |ws| ==> ws[i] == (vs + ws)[|vs| + i];
  }

  method Encode(hrp: string, values: seq<nat>) returns (ret: string)
    ensures ret == Encoded(hrp, values)
  {
    var checksum := CreateChecksum(hrp, values);
    JoinSmall(values, checksum);
    var ok, part := WriteSymbols(values + checksum);
    if !ok {
      return "";
    }
    ret := hrp + "1" + part;
  }

  /** The loop of Encode. */
  method WriteSymbols(combined: seq<nat>) returns (ok: bool, part: string)
    ensures ok == AllSmall(combined)
    ensures ok ==> part == Symbols(combined)
  {
    part := "";
    var k := 0;
    while k < |combined|
      invariant 0 <= k <= |combined| && AllSmall(combined[..k]) && part == Symbols(combined[..k])
    {
      if combined[k] >= 32 {
        return false, part;
      }
      SymbolsAppend(combined[..k], combined[k]);
      assert combined[..k] + [combined[k]] == combined[..k + 1];
      part := part + [CharOf(combined[k])];
      k := k + 1;
    }
    assert combined[..k] == combined;
    ok := true;
  }

  /** The first loop of Decode. */
  method CheckCase(str: string) returns (ok: bool)
    ensures ok == OneCase(str)
  {
    var lower, upper := false, false;
    var i := 0;
    while i < |str|
      invariant 0 <= i <= |str| && Printable(str[..i])
      invariant lower == HasLower(str[..i]) && upper == HasUpper(str[..i])
    {
      var c := str[i];
      if c as int < 33 || c as int > 126 {
        return false;
      }
      assert str[..i + 1] == str[..i] + [c];
      lower := lower || 'a' <= c <= 'z';
      upper := upper || 'A' <= c <= 'Z';
      i := i + 1;
    }
    assert str[..i] == str;
    ok := !(lower && upper);
  }

  /** The second loop of Decode. */
  method ReadValues(part: string) returns (ok: bool, values: seq<nat>)
    ensures ok == AllSymbols(part)
    ensures ok ==> values == Values(part)
  {
    values := [];
    var i := 0;
    while i < |part|
      invariant 0 <= i <= |part| && AllSymbols(part[..i]) && values == Values(part[..i])
    {
      var rev := ValueOf(part[i]);
      if rev == -1 {
        return false, [];
      }
      assert part[..i + 1] == part[..i] + [part[i]];
      values := values + [rev];
      i := i + 1;
    }
    assert part[..i] == part;
    ok := true;
  }

  method VerifyChecksum(hrp: string, values: seq<nat>) returns (ok: bool)
    ensures ok == Verifies(hrp, values)
  {
    var enc := ExpandHRP(hrp);
    var check := PolyMod(enc + values);
    ok := check == 1;
  }

  method Decode(str: string) returns (r: (string, seq<nat>))
    ensures r == Decoded(str)
  {
    var ok := CheckCase(str);
    var pos := LastOne(str);
    if !ok || |str| > 1023 || pos == -1 || pos == 0 || pos + 7 > |str| {
      return ("", []);
    }
    var known, values := ReadValues(str[pos + 1..]);
    if !known {
      return ("", []);
    }
    r := StripChecksum(Lowered(str[..pos]), values);
  }

  method StripChecksum(hrp: string, values: seq<nat>) returns (r: (string, seq<nat>))
    requires |values| >= 6
    ensures r == Checked(hrp, values)
  {
    var verified := VerifyChecksum(hrp, values);
    if !verified {
      return ("", []);
    }
    r := (hrp, values[..|values| - 6]);
  }
}
