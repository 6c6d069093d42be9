/** Base58: the digit buffers of the source against plain number conversion, and the two
    round trips.

    A buffer is kept least significant digit first, the order in which the source's reverse
    iterators visit it. */
module Base58 {
  import opened Options
  import opened Powers

  datatype Base = B58 | B256

  function Radix(b: Base): nat { match b case B58 => 58 case B256 => 256 }
  function Other(b: Base): Base { match b case B58 => B256 case B256 => B58 }

  function Scale(b: Base, x: int): int { match b case B58 => 58 * x case B256 => 256 * x }
  function Quot(b: Base, x: nat): nat { match b case B58 => x / 58 case B256 => x / 256 }
  function Rem(b: Base, x: nat): nat { match b case B58 => x % 58 case B256 => x % 256 }

  ghost predicate AreDigits(b: Base, s: seq<nat>) {
    forall i :: 0 <= i < |s| ==> s[i] < Radix(b)
  }

  /** The number a big-endian list of digits stands for. */
  function Value(b: Base, s: seq<nat>): nat {
    if s == [] then 0 else Scale(b, Value(b, s[..|s| - 1])) + s[|s| - 1]
  }

  /** The digits of a number, big-endian, without leading zeros. */
  function Minimal(b: Base, v: nat): seq<nat>
    decreases v
  {
    if v == 0 then [] else Minimal(b, Quot(b, v)) + [Rem(b, v)]
  }

  lemma {:induction false} MinimalValue(b: Base, v: nat)
    ensures Value(b, Minimal(b, v)) == v && AreDigits(b, Minimal(b, v))
    ensures v > 0 ==> |Minimal(b, v)| > 0 && Minimal(b, v)[0] > 0
    decreases v
  {
    if v > 0 {
      var s := Minimal(b, Quot(b, v));
      MinimalValue(b, Quot(b, v));
      assert Minimal(b, v)[..|s|] == s;
    }
  }

  /** Digits without leading zeros are the minimal digits of their value. */
  lemma {:induction false} MinimalUnique(b: Base, s: seq<nat>)
    requires AreDigits(b, s) && (s != [] ==> s[0] > 0)
    ensures Minimal(b, Value(b, s)) == s
    ensures s != [] ==> Value(b, s) > 0
  {
    if s != [] {
      var init, d := s[..|s| - 1], s[|s| - 1];
      MinimalUnique(b, init);
      assert Quot(b, Value(b, s)) == Value(b, init) && Rem(b, Value(b, s)) == d;
      assert init + [d] == s;
    }
  }

  /** n digits stand for less than radix^n. */
  lemma {:induction false} ValueBound(b: Base, s: seq<nat>)
    requires AreDigits(b, s)
    ensures Value(b, s) < Pow(Radix(b), |s|)
  {
    if s != [] {
      ValueBound(b, s[..|s| - 1]);
    }
  }

  // ----- the buffer -----------------------------------------------------------------------

  /** The number a buffer stands for, least significant digit first. */
  function Stored(b: Base, s: seq<nat>): nat {
    if s == [] then 0 else s[0] + Scale(b, Stored(b, s[1..]))
  }

  function Reverse(s: seq<nat>): (r: seq<nat>)
    ensures |r| == |s|
  {
    if s == [] then [] else Reverse(s[1..]) + [s[0]]
  }

  lemma {:induction false} StoredIsValue(b: Base, s: seq<nat>)
    ensures Stored(b, s) == Value(b, Reverse(s))
  {
    if s != [] {
      StoredIsValue(b, s[1..]);
      var r := Reverse(s[1..]);
      assert (r + [s[0]])[..|r|] == r;
    }
  }

  lemma {:induction false} ReverseDigits(b: Base, s: seq<nat>)
    requires AreDigits(b, s)
    ensures AreDigits(b, Reverse(s))
    ensures s != [] ==> Reverse(s)[0] == s[|s| - 1]
  {
    if s != [] {
      ReverseDigits(b, s[1..]);
    }
  }

  lemma {:induction false} StoredZeros(b: Base, s: seq<nat>, n: nat)
    requires n <= |s| && forall i :: n <= i < |s| ==> s[i] == 0
    ensures Stored(b, s) == Stored(b, s[..n])
    decreases |s|
  {
    if s != [] {
      if n == 0 {
        StoredZeros(b, s[1..], 0);
      } else {
        StoredZeros(b, s[1..], n - 1);
        assert s[1..][..n - 1] == s[..n][1..];
      }
    }
  }

  /** One pass over the buffer: multiply by the other radix and add; the carry falls out. */
  function MulAdd(b: Base, s: seq<nat>, carry: nat): (r: (seq<nat>, nat))
    ensures |r.0| == |s|
  {
    if s == [] then ([], carry)
    else
      var t := carry + Scale(Other(b), s[0]);
      var rest := MulAdd(b, s[1..], Quot(b, t));
      ([Rem(b, t)] + rest.0, rest.1)
  }

  /** If the product fits, the pass is exact and no carry falls out. */
  lemma {:induction false} MulAddExact(b: Base, s: seq<nat>, carry: nat)
    requires Scale(Other(b), Stored(b, s)) + carry < Pow(Radix(b), |s|)
    ensures MulAdd(b, s, carry).1 == 0
    ensures Stored(b, MulAdd(b, s, carry).0) == Scale(Other(b), Stored(b, s)) + carry
    ensures AreDigits(b, MulAdd(b, s, carry).0)
  {
    if s != [] {
      var t := carry + Scale(Other(b), s[0]);
      MulAddExact(b, s[1..], Quot(b, t));
      var rest := MulAdd(b, s[1..], Quot(b, t)).0;
      assert ([Rem(b, t)] + rest)[1..] == rest;
    }
  }

  lemma {:induction false} MulAddZeros(b: Base, s: seq<nat>)
    requires forall i :: 0 <= i < |s| ==> s[i] == 0
    ensures MulAdd(b, s, 0) == (s, 0)
  {
    if s != [] {
      MulAddZeros(b, s[1..]);
      assert [0] + s[1..] == s;
    }
  }

  /** After i steps of a pass: the digits so far and the carry determine the rest. */
  ghost predicate PassAt(b: Base, s: seq<nat>, c: nat, done: seq<nat>, i: nat, carry: nat) {
    && i <= |s|
    && MulAdd(b, s, c) == (done + MulAdd(b, s[i..], carry).0, MulAdd(b, s[i..], carry).1)
  }

  lemma PassStarts(b: Base, s: seq<nat>, c: nat)
    ensures PassAt(b, s, c, [], 0, c)
  {
    assert s[0..] == s && [] + MulAdd(b, s, c).0 == MulAdd(b, s, c).0;
  }

  lemma PassStep(b: Base, s: seq<nat>, c: nat, done: seq<nat>, i: nat, carry: nat)
    requires PassAt(b, s, c, done, i, carry) && i < |s|
    ensures var t := carry + Scale(Other(b), s[i]);
      PassAt(b, s, c, done + [Rem(b, t)], i + 1, Quot(b, t))
  {
    var t := carry + Scale(Other(b), s[i]);
    assert s[i..][0] == s[i] && s[i..][1..] == s[i + 1..];
    var rest := MulAdd(b, s[i + 1..], Quot(b, t)).0;
    assert done + ([Rem(b, t)] + rest) == (done + [Rem(b, t)]) + rest;
  }

  lemma PassEnds(b: Base, s: seq<nat>, c: nat, done: seq<nat>, i: nat, carry: nat)
    requires PassAt(b, s, c, done, i, carry)
    requires i == |s| || (carry == 0 && forall j :: i <= j < |s| ==> s[j] == 0)
    ensures MulAdd(b, s, c) == (done + s[i..], carry)
  {
    if i < |s| {
      MulAddZeros(b, s[i..]);
    }
  }

  /** The inner loop of both directions.  It stops early when nothing is carried and only
      leading zeros are left. */
  method Pass(b: Base, s: seq<nat>, length: nat, c: nat) returns (buf: seq<nat>, newLength: nat, carry: nat)
    requires length <= |s| && forall i :: length <= i < |s| ==> s[i] == 0
    ensures (buf, carry) == MulAdd(b, s, c)
    ensures newLength <= |buf| && forall i :: newLength <= i < |buf| ==> buf[i] == 0
  {
    PassStarts(b, s, c);
    buf, carry := s, c;
    var i: nat := 0;
    while (carry != 0 || i < length) && i < |buf|
      invariant i <= |buf| == |s| && PassAt(b, s, c, buf[..i], i, carry)
      invariant forall j :: i <= j < |s| ==> buf[j] == s[j]
    {
      PassStep(b, s, c, buf[..i], i, carry);
      ghost var done := buf[..i];
      carry := carry + Scale(Other(b), buf[i]);
      buf := buf[i := Rem(b, carry)];
      carry := Quot(b, carry);
      assert buf[..i + 1] == done + [buf[i]];
      i := i + 1;
    }
    PassEnds(b, s, c, buf[..i], i, carry);
    assert buf == buf[..i] + s[i..];
    newLength := i;
  }

  /** "buffer = buffer * other radix + c"; the source's assertion that no carry remains holds
      whenever the result fits the buffer. */
  method Feed(b: Base, s: seq<nat>, length: nat, c: nat) returns (buf: seq<nat>, newLength: nat)
    requires length <= |s| && forall i :: length <= i < |s| ==> s[i] == 0
    requires Scale(Other(b), Stored(b, s)) + c < Pow(Radix(b), |s|)
    ensures |buf| == |s| && AreDigits(b, buf) && Stored(b, buf) == Scale(Other(b), Stored(b, s)) + c
    ensures newLength <= |buf| && forall i :: newLength <= i < |buf| ==> buf[i] == 0
  {
    MulAddExact(b, s, c);
    var carry;
    buf, newLength, carry := Pass(b, s, length, c);
    assert carry == 0;
  }

  /** The output loop of both directions: leading zeros are skipped. */
  method Emit(b: Base, buf: seq<nat>, length: nat) returns (digits: seq<nat>)
    requires length <= |buf| && AreDigits(b, buf)
    requires forall i :: length <= i < |buf| ==> buf[i] == 0
    ensures digits == Minimal(b, Stored(b, buf))
  {
    var n: nat := length;
    while n > 0 && buf[n - 1] == 0
      invariant n <= length && forall i :: n <= i < |buf| ==> buf[i] == 0
    {
      n := n - 1;
    }
    digits := BigEndian(buf, n);
    TrimmedIsMinimal(b, buf, n);
  }

  method BigEndian(buf: seq<nat>, n: nat) returns (digits: seq<nat>)
    requires n <= |buf|
    ensures digits == Reverse(buf[..n])
  {
    digits := [];
    var k := n;
    while k > 0
      invariant 0 <= k <= n && Reverse(buf[..n]) == digits + Reverse(buf[..k])
    {
      ReverseLast(buf[..k]);
      assert buf[..k][..k - 1] == buf[..k - 1];
      k := k - 1;
      digits := digits + [buf[k]];
    }
  }

  lemma TrimmedIsMinimal(b: Base, s: seq<nat>, n: nat)
    requires AreDigits(b, s) && n <= |s| && (n > 0 ==> s[n - 1] > 0) && forall i :: n <= i < |s| ==> s[i] == 0
    ensures Reverse(s[..n]) == Minimal(b, Stored(b, s))
  {
    StoredZeros(b, s, n);
    StoredIsValue(b, s[..n]);
    ReverseDigits(b, s[..n]);
    MinimalUnique(b, Reverse(s[..n]));
  }

  lemma {:induction false} ReverseLast(s: seq<nat>)
    requires s != []
    ensures Reverse(s) == [s[|s| - 1]] + Reverse(s[..|s| - 1])
  {
    if |s| > 1 {
      ReverseLast(s[1..]);
      assert s[1..][..|s| - 2] == s[..|s| - 1][1..];
    }
  }

  // ----- the alphabet ----------------------------------------------------------------------

  /** All letters and digits except 0, I, O and l, as byte values. */
  function CharOf(d: nat): (c: nat)
    requires d < 58
  {
    if d < 9 then 49 + d           // 1..9
    else if d < 17 then 65 + d - 9   // A..H
    else if d < 22 then 74 + d - 17  // J..N
    else if d < 33 then 80 + d - 22  // P..Z
    else if d < 44 then 97 + d - 33  // a..k
    else 109 + d - 44                // m..z
  }

  function IndexOf(c: nat): (d: int)
    ensures d == -1 || (0 <= d < 58 && CharOf(d) == c)
    ensures d == -1 ==> forall e: nat :: e < 58 ==> CharOf(e) != c
  {
    if 49 <= c <= 57 then c - 49
    else if 65 <= c <= 72 then c - 65 + 9
    else if 74 <= c <= 78 then c - 74 + 17
    else if 80 <= c <= 90 then c - 80 + 22
    else if 97 <= c <= 107 then c - 97 + 33
    else if 109 <= c <= 122 then c - 109 + 44
    else -1
  }

  const DIGITS := "123456789"
  const CAPITALS := "ABCDEFGHJKLMNPQRSTUVWXYZ"
  const SMALLS := "abcdefghijkmnopqrstuvwxyz"

  lemma CapitalsAre(d: nat)
    requires 9 <= d < 33
    ensures |CAPITALS| == 24 && CAPITALS[d - 9] as int == CharOf(d)
  {
  }

  lemma SmallsAre(d: nat)
    requires 33 <= d < 58
    ensures |SMALLS| == 25 && SMALLS[d - 33] as int == CharOf(d)
  {
  }

  /** Digits have the characters of the alphabet of the source. */
  lemma AlphabetIs(d: nat)
    requires d < 58
    ensures |DIGITS| == 9 && |CAPITALS| == 24 && |SMALLS| == 25
    ensures CharOf(d) == (DIGITS + CAPITALS + SMALLS)[d] as int && IndexOf(CharOf(d)) == d
  {
    if d < 9 {
      assert DIGITS[d] as int == CharOf(d);
    } else if d < 33 {
      CapitalsAre(d);
    } else {
      SmallsAre(d);
    }
  }

  predicate IsSpace(c: nat) { c == 32 || 9 <= c <= 13 }

  function Chars(digits: seq<nat>): (s: seq<nat>)
    requires forall i :: 0 <= i < |digits| ==> digits[i] < 58
    ensures |s| == |digits| && forall i :: 0 <= i < |s| ==> s[i] == CharOf(digits[i])
  {
    seq(|digits|, i requires 0 <= i < |digits| => CharOf(digits[i]))
  }

  predicate AllValid(s: seq<nat>) { forall i :: 0 <= i < |s| ==> IndexOf(s[i]) != -1 }
  predicate AllSpace(s: seq<nat>) { forall i :: 0 <= i < |s| ==> IsSpace(s[i]) }

  function Indexes(s: seq<nat>): (digits: seq<nat>)
    requires AllValid(s)
    ensures |digits| == |s| && forall i :: 0 <= i < |s| ==> digits[i] == IndexOf(s[i]) && digits[i] < 58
  {
    seq(|s|, i requires 0 <= i < |s| => IndexOf(s[i]))
  }

  /** Length of the longest prefix of a given kind. */
  function Leading(s: seq<nat>, isKind: nat -> bool): (n: nat)
    ensures n <= |s| && (forall i :: 0 <= i < n ==> isKind(s[i])) && (n < |s| ==> !isKind(s[n]))
  {
    if s == [] || !isKind(s[0]) then 0 else 1 + Leading(s[1..], isKind)
  }

  /** Length of the word before the first space. */
  function WordLength(s: seq<nat>): (n: nat)
    ensures n <= |s| && (forall i :: 0 <= i < n ==> !IsSpace(s[i])) && (n < |s| ==> IsSpace(s[n]))
  {
    Leading(s, (c: nat) => !IsSpace(c))
  }

  function Copies(c: nat, n: nat): (s: seq<nat>)
    ensures |s| == n && forall i :: 0 <= i < n ==> s[i] == c
  {
    seq(n, i => c)
  }

  // ----- what the two functions compute --------------------------------------------------------

  /** One '1' for every leading zero byte, then the rest as a number in base 58. */
  ghost function Encoded(bytes: seq<nat>): seq<nat>
  {
    var z := Leading(bytes, c => c == 0);
    var digits := Minimal(B58, Value(B256, bytes[z..]));
    MinimalValue(B58, Value(B256, bytes[z..]));
    Copies(49, z) + Chars(digits)
  }

  ghost function Decoded(str: seq<nat>): Option<seq<nat>> {
    var s := str[Leading(str, IsSpace)..];
    var z := Leading(s, c => c == 49);
    var body := s[z..];
    var n := WordLength(body);
    if !AllValid(body[..n]) || !AllSpace(body[n..]) then None
    else Some(Copies(0, z) + Minimal(B256, Value(B58, Indexes(body[..n]))))
  }

  method EncodeBase58(bytes: seq<nat>) returns (str: seq<nat>)
    requires AreDigits(B256, bytes)
    ensures str == Encoded(bytes)
  {
    var zeroes := Leading(bytes, c => c == 0);
    var rest := bytes[zeroes..];
    var size := |rest| * 138 / 100 + 1;
    var b58 := Copies(0, size);
    var length: nat, k: nat := 0, 0;
    ZeroBuffer(B58, b58);
    BytesFitDigits(|rest|);
    while k < |rest|
      invariant k <= |rest| && length <= |b58| == size
      invariant AreDigits(B58, b58) && forall i :: length <= i < |b58| ==> b58[i] == 0
      invariant Stored(B58, b58) == Value(B256, rest[..k])
    {
      AppendFits(B256, rest[..k], rest[k], |rest|);
      assert rest[..k] + [rest[k]] == rest[..k + 1];
      b58, length := Feed(B58, b58, length, rest[k]);
      k := k + 1;
    }
    assert rest[..k] == rest;
    MinimalValue(B58, Value(B256, rest));
    var digits := Emit(B58, b58, length);
    str := Copies(49, zeroes) + Chars(digits);
  }

  lemma {:induction false} ZeroBuffer(b: Base, s: seq<nat>)
    requires forall i :: 0 <= i < |s| ==> s[i] == 0
    ensures Stored(b, s) == 0 && AreDigits(b, s)
  {
    if s != [] {
      ZeroBuffer(b, s[1..]);
    }
  }

  /** A prefix of at most n digits, extended by one, stays below radix^n. */
  lemma AppendFits(b: Base, s: seq<nat>, d: nat, n: nat)
    requires |s| < n && AreDigits(b, s) && d < Radix(b)
    ensures Value(b, s + [d]) == Scale(b, Value(b, s)) + d < Pow(Radix(b), n)
  {
    assert (s + [d])[..|s|] == s;
    ValueBound(b, s + [d]);
    PowLonger(Radix(b), |s| + 1, n);
  }

  /** A string as C reads it: up to the first zero byte. */
  function CString(str: seq<nat>): seq<nat> {
    str[..Leading(str, c => c != 0)]
  }

  method DecodeBase58(str: seq<nat>) returns (r: Option<seq<nat>>)
    ensures r == Decoded(CString(str))
  {
    var psz := CString(str);
    var s := psz[Leading(psz, IsSpace)..];
    var zeroes := Leading(s, c => c == 49);
    var body := s[zeroes..];
    var bytes, k := DecodeBody(body);
    if bytes.None? || !AllSpace(body[k..]) {
      return None;
    }
    r := Some(Copies(0, zeroes) + bytes.value);
  }

  /** The digit loop of DecodeBase58: up to the first space, or None at a foreign character. */
  method DecodeBody(body: seq<nat>) returns (bytes: Option<seq<nat>>, k: nat)
    ensures k <= |body|
    ensures bytes.Some? ==> (
      && k == WordLength(body) && AllValid(body[..k])
      && bytes.value == Minimal(B256, Value(B58, Indexes(body[..k]))))
    ensures bytes.None? ==> !AllValid(body[..WordLength(body)])
  {
    var size := |body| * 733 / 1000 + 1;
    var b256 := Copies(0, size);
    var length: nat := 0;
    k := 0;
    ZeroBuffer(B256, b256);
    DigitsFitBytes(|body|);
    assert Indexes(body[..0]) == [];
    while k < |body| && !IsSpace(body[k])
      invariant k <= WordLength(body) && length <= |b256| == size
      invariant AreDigits(B256, b256) && forall i :: length <= i < |b256| ==> b256[i] == 0
      invariant AllValid(body[..k]) && Stored(B256, b256) == Value(B58, Indexes(body[..k]))
    {
      var d := IndexOf(body[k]);
      WordNext(body, k);
      if d == -1 {
        Foreign(body, k);
        return None, k;
      }
      ghost var digits := Indexes(body[..k]);
      AppendFits(B58, digits, d, |body|);
      b256, length := Feed(B256, b256, length, d);
      IndexesNext(body, k, d);
      k := k + 1;
    }
    WordNext(body, k);
    var out := Emit(B256, b256, length);
    bytes := Some(out);
  }

  /** The word goes on exactly as long as no space is met. */
  lemma WordNext(body: seq<nat>, k: nat)
    requires k <= WordLength(body)
    ensures k == WordLength(body) <==> k == |body| || IsSpace(body[k])
  {
  }

  lemma Foreign(body: seq<nat>, k: nat)
    requires k < WordLength(body) && IndexOf(body[k]) == -1
    ensures !AllValid(body[..WordLength(body)])
  {
    assert body[..WordLength(body)][k] == body[k];
  }

  lemma IndexesNext(body: seq<nat>, k: nat, d: nat)
    requires k < |body| && AllValid(body[..k]) && IndexOf(body[k]) == d
    ensures AllValid(body[..k + 1]) && Indexes(body[..k + 1]) == Indexes(body[..k]) + [d]
  {
    assert body[..k + 1] == body[..k] + [body[k]];
  }

  // ----- round trips ---------------------------------------------------------------------------

  lemma {:induction false} LeadingIs(s: seq<nat>, isKind: nat -> bool, n: nat)
    requires n <= |s| && (forall i :: 0 <= i < n ==> isKind(s[i])) && (n < |s| ==> !isKind(s[n]))
    ensures Leading(s, isKind) == n
  {
    if n > 0 {
      LeadingIs(s[1..], isKind, n - 1);
    }
  }

  /** The three parts of a decoded string: nothing skipped, z ones, one word of digits. */
  lemma DecodedParts(z: nat, body: seq<nat>)
    requires AllValid(body) && (body != [] ==> body[0] != 49)
    ensures Decoded(Copies(49, z) + body) == Some(Copies(0, z) + Minimal(B256, Value(B58, Indexes(body))))
  {
    var str := Copies(49, z) + body;
    LeadingIs(str, IsSpace, 0);
    assert str[0..] == str;
    LeadingIs(str, c => c == 49, z);
    assert str[z..] == body;
    LeadingIs(body, (c: nat) => !IsSpace(c), |body|);
    assert body[..|body|] == body && body[|body|..] == [];
  }

  /** Decoding inverts encoding on every byte sequence, leading zeros included. */
  lemma DecodeEncode(bytes: seq<nat>)
    requires AreDigits(B256, bytes)
    ensures Decoded(Encoded(bytes)) == Some(bytes)
  {
    var z := Leading(bytes, c => c == 0);
    CopiesSplit(0, bytes, z);
    var rest := bytes[z..];
    var v := Value(B256, rest);
    MinimalUnique(B256, rest);
    MinimalValue(B58, v);
    CharsBack(Minimal(B58, v));
    DecodedParts(z, Chars(Minimal(B58, v)));
  }

  /** An encoded string has no zero byte, so nothing is cut off it. */
  lemma EncodedIsWhole(bytes: seq<nat>)
    ensures CString(Encoded(bytes)) == Encoded(bytes)
  {
    var str := Encoded(bytes);
    LeadingIs(str, c => c != 0, |str|);
  }

  lemma CopiesSplit(c: nat, s: seq<nat>, z: nat)
    requires z <= |s| && forall i :: 0 <= i < z ==> s[i] == c
    ensures Copies(c, z) + s[z..] == s
  {
  }

  lemma TakeDrop(s: seq<nat>, k: nat)
    requires k <= |s|
    ensures s[..k] + s[k..] == s
  {
  }

  lemma CharsBack(digits: seq<nat>)
    requires AreDigits(B58, digits)
    ensures AllValid(Chars(digits)) && Indexes(Chars(digits)) == digits
    ensures digits != [] && digits[0] > 0 ==> Chars(digits)[0] != 49
  {
    var body := Chars(digits);
    forall i | 0 <= i < |body| ensures IndexOf(body[i]) == digits[i] {
      CharsInverse(digits[i]);
    }
  }

  lemma CharsInverse(d: nat)
    requires d < 58
    ensures IndexOf(CharOf(d)) == d && (d > 0 ==> CharOf(d) != 49)
  {
  }

  lemma EncodedParts(z: nat, rest: seq<nat>)
    requires AreDigits(B256, rest) && (rest != [] ==> rest[0] > 0)
    ensures AreDigits(B58, Minimal(B58, Value(B256, rest)))
    ensures Encoded(Copies(0, z) + rest) == Copies(49, z) + Chars(Minimal(B58, Value(B256, rest)))
  {
    var bytes := Copies(0, z) + rest;
    LeadingIs(bytes, c => c == 0, z);
    assert bytes[z..] == rest;
    MinimalValue(B58, Value(B256, rest));
  }

  lemma IndexesBack(body: seq<nat>)
    requires AllValid(body)
    ensures AreDigits(B58, Indexes(body)) && Chars(Indexes(body)) == body
    ensures body != [] && body[0] != 49 ==> Indexes(body)[0] > 0
  {
  }

  /** Base 58 digits survive the trip through base 256. */
  lemma DigitsBack(digits: seq<nat>, rest: seq<nat>)
    requires AreDigits(B58, digits) && (digits != [] ==> digits[0] > 0)
    requires rest == Minimal(B256, Value(B58, digits))
    ensures AreDigits(B256, rest) && (rest != [] ==> rest[0] > 0)
    ensures Minimal(B58, Value(B256, rest)) == digits
  {
    MinimalValue(B256, Value(B58, digits));
    MinimalUnique(B58, digits);
  }

  /** z ones and a word that starts with another character come back from their decoding. */
  lemma PartsBack(z: nat, body: seq<nat>)
    requires AllValid(body) && (body != [] ==> body[0] != 49)
    ensures Encoded(Copies(0, z) + Minimal(B256, Value(B58, Indexes(body)))) == Copies(49, z) + body
  {
    IndexesBack(body);
    var rest := Minimal(B256, Value(B58, Indexes(body)));
    DigitsBack(Indexes(body), rest);
    EncodedParts(z, rest);
  }

  lemma OnesSplit(str: seq<nat>) returns (z: nat, body: seq<nat>)
    ensures str == Copies(49, z) + body && (body != [] ==> body[0] != 49)
  {
    z := Leading(str, c => c == 49);
    body := str[z..];
    CopiesSplit(49, str, z);
  }

  lemma ValidSuffix(c: nat, z: nat, body: seq<nat>)
    requires AllValid(Copies(c, z) + body)
    ensures AllValid(body)
  {
    var str := Copies(c, z) + body;
    forall i | 0 <= i < |body| ensures IndexOf(body[i]) != -1 {
      assert str[z + i] == body[i];
    }
  }

  /** Every string of alphabet characters decodes, and encoding gives it back. */
  lemma EncodeDecodeWord(str: seq<nat>)
    requires AllValid(str)
    ensures Decoded(str).Some? && Encoded(Decoded(str).value) == str
  {
    var z, body := OnesSplit(str);
    ValidSuffix(49, z, body);
    DecodedParts(z, body);
    PartsBack(z, body);
  }

  /** The first word of a string. */
  ghost function Trimmed(str: seq<nat>): seq<nat> {
    var s := str[Leading(str, IsSpace)..];
    s[..WordLength(s)]
  }

  /** Leading ones are part of the word. */
  lemma WordOfOnes(s: seq<nat>, z: nat)
    requires z <= |s| && forall i :: 0 <= i < z ==> s[i] == 49
    ensures WordLength(s) == z + WordLength(s[z..])
  {
    var n := WordLength(s[z..]);
    forall i | 0 <= i < z + n ensures !IsSpace(s[i]) {
      if i >= z {
        assert s[i] == s[z..][i - z];
      }
    }
    LeadingIs(s, (c: nat) => !IsSpace(c), z + n);
  }

  lemma AllValidJoin(c: nat, z: nat, body: seq<nat>)
    requires AllValid(body) && IndexOf(c) != -1
    ensures AllValid(Copies(c, z) + body)
  {
  }

  /** The first word of a string that decodes: ones and digits. */
  lemma TrimmedParts(str: seq<nat>) returns (z: nat, word: seq<nat>)
    requires Decoded(str).Some?
    ensures AllValid(word) && (word != [] ==> word[0] != 49) && Trimmed(str) == Copies(49, z) + word
    ensures Decoded(str) == Some(Copies(0, z) + Minimal(B256, Value(B58, Indexes(word))))
  {
    var s := str[Leading(str, IsSpace)..];
    z := Leading(s, c => c == 49);
    word := s[z..][..WordLength(s[z..])];
    WordOfOnes(s, z);
    OnesThenWord(s, z, |word|);
  }

  lemma OnesThenWord(s: seq<nat>, z: nat, n: nat)
    requires z + n <= |s| && forall i :: 0 <= i < z ==> s[i] == 49
    ensures s[..z + n] == Copies(49, z) + s[z..][..n]
  {
  }

  /** A string that decodes, decodes as its first word, which consists of alphabet characters. */
  lemma WordDecides(str: seq<nat>)
    requires Decoded(str).Some?
    ensures AllValid(Trimmed(str)) && Decoded(Trimmed(str)) == Decoded(str)
  {
    var z, word := TrimmedParts(str);
    DecodedParts(z, word);
    AllValidJoin(49, z, word);
  }

  /** Encoding inverts decoding on every string that decodes, up to the spaces around it. */
  lemma EncodeDecode(str: seq<nat>)
    requires Decoded(str).Some?
    ensures Encoded(Decoded(str).value) == Trimmed(str)
  {
    WordDecides(str);
    EncodeDecodeWord(Trimmed(str));
  }

  // ----- checksums -------------------------------------------------------------------------------

  /** `hash` stands for the first four bytes of the double SHA-256. */
  ghost function EncodedCheck(payload: seq<nat>, hash: seq<nat> -> seq<nat>): seq<nat> {
    Encoded(payload + hash(payload))
  }

  ghost function DecodedCheck(str: seq<nat>, hash: seq<nat> -> seq<nat>): Option<seq<nat>> {
    match Decoded(str)
    case None => None
    case Some(bytes) =>
      if |bytes| < 4 then None
      else
        var payload := bytes[..|bytes| - 4];
        if hash(payload) == bytes[|bytes| - 4..] then Some(payload) else None
  }

  /** A checked string decodes exactly to the payload it was made from: the encoder's output is
      accepted, and whatever is accepted carries the right checksum. */
  lemma CheckRoundTrip(payload: seq<nat>, hash: seq<nat> -> seq<nat>)
    requires AreDigits(B256, payload) && AreDigits(B256, hash(payload)) && |hash(payload)| == 4
    ensures DecodedCheck(EncodedCheck(payload, hash), hash) == Some(payload)
  {
    var bytes := payload + hash(payload);
    DecodeEncode(bytes);
    assert bytes[..|bytes| - 4] == payload && bytes[|bytes| - 4..] == hash(payload);
  }

  /** A string is accepted only if it carries the right checksum: with the spaces around it
      trimmed, it is what the encoder makes of the payload. */
  lemma CheckAccepts(str: seq<nat>, hash: seq<nat> -> seq<nat>)
    requires DecodedCheck(str, hash).Some?
    ensures EncodedCheck(DecodedCheck(str, hash).value, hash) == Trimmed(str)
  {
    EncodeDecode(str);
    var bytes := Decoded(str).value;
    TakeDrop(bytes, |bytes| - 4);
  }

  // ----- an example ----------------------------------------------------------------------------------

  /** Two zero bytes and the letter a are written as "112g". */
  lemma Example(bytes: seq<nat>, str: seq<nat>)
    requires bytes == [0, 0, 97] && str == [49, 49, 50, 103]
    ensures Encoded(bytes) == str && Decoded(str) == Some(bytes)
  {
    LeadingIs(bytes, (c: nat) => c == 0, 2);
    assert bytes[2..] == [97] && Value(B256, [97]) == 97;
    assert Quot(B58, 97) == 1 && Rem(B58, 97) == 39 && Quot(B58, 1) == 0 && Rem(B58, 1) == 1;
    assert Minimal(B58, 1) == [] + [1];
    assert Minimal(B58, 97) == [1, 39];
    assert Chars([1, 39]) == [50, 103];
    assert Copies(49, 2) + [50, 103] == str;
    DecodeEncode(bytes);
  }
}
