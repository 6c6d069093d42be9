/** Bloom filters and the rolling filter made of two of them. */
module Bloom {
  import opened Bits

  type Key = seq<nat>

  /** What is fixed for a filter; `murmur` stands for MurmurHash3. */
  datatype Params = Params(bytes: nat, hashFuncs: nat, murmur: (nat, Key) -> nat)

  /** vData, isFull, isEmpty and nTweak. */
  datatype Filter = Filter(data: seq<nat>, full: bool, empty: bool, tweak: nat)

  /** The bit that hash function i selects for a key. */
  function Index(p: Params, tweak: nat, i: nat, key: Key): (r: nat)
    requires p.bytes > 0
    ensures r < 8 * p.bytes
  {
    p.murmur((i * 0xFBA4C795 + tweak) % 0x1_0000_0000, key) % (p.bytes * 8)
  }

  predicate BitSet(data: seq<nat>, index: nat)
    requires index < 8 * |data|
  {
    Bit(data[index / 8], index % 8)
  }

  function WithBit(data: seq<nat>, index: nat): (r: seq<nat>)
    requires index < 8 * |data|
    ensures |r| == |data|
  {
    data[index / 8 := Or(data[index / 8], Shl(1, index % 8))]
  }

  /** Set the bits of hash functions i and up. */
  function Marked(p: Params, f: Filter, key: Key, i: nat): (data: seq<nat>)
    requires p.bytes > 0 && |f.data| == p.bytes && i <= p.hashFuncs
    ensures |data| == p.bytes
    decreases i
  {
    if i == 0 then f.data else WithBit(Marked(p, f, key, i - 1), Index(p, f.tweak, i - 1, key))
  }

  predicate AllSet(p: Params, f: Filter, key: Key)
    requires p.bytes > 0 && |f.data| == p.bytes
  {
    forall i :: 0 <= i < p.hashFuncs ==> BitSet(f.data, Index(p, f.tweak, i, key))
  }

  predicate Contained(p: Params, f: Filter, key: Key)
    requires p.bytes > 0 && |f.data| == p.bytes
  {
    f.full || (!f.empty && AllSet(p, f, key))
  }

  function Inserted(p: Params, f: Filter, key: Key): (g: Filter)
    requires p.bytes > 0 && |f.data| == p.bytes
    ensures |g.data| == p.bytes && g.tweak == f.tweak
  {
    if f.full then f else f.(data := Marked(p, f, key, p.hashFuncs), empty := false)
  }

  function Cleared(f: Filter): (g: Filter)
    ensures |g.data| == |f.data| && g.tweak == f.tweak
  {
    Filter(seq(|f.data|, i => 0), false, true, f.tweak)
  }

  // ----- one filter ------------------------------------------------------------------------------------------------

  lemma {:induction false} OrBit(a: nat, b: nat, k: nat)
    ensures Bit(Or(a, b), k) == (Bit(a, k) || Bit(b, k))
    decreases k
  {
    if k > 0 {
      OrBit(a / 2, b / 2, k - 1);
    }
  }

  lemma {:induction false} PowerBit(k: nat)
    ensures Bit(Shl(1, k), k)
  {
    if k > 0 {
      assert Shl(1, k) / 2 == Shl(1, k - 1);
      PowerBit(k - 1);
    }
  }

  /** Setting a bit sets it and clears none. */
  lemma WithBitSets(data: seq<nat>, index: nat, other: nat)
    requires index < 8 * |data| && other < 8 * |data|
    ensures BitSet(WithBit(data, index), index)
    ensures BitSet(data, other) ==> BitSet(WithBit(data, index), other)
  {
    OrBit(data[index / 8], Shl(1, index % 8), index % 8);
    PowerBit(index % 8);
    OrBit(data[index / 8], Shl(1, index % 8), other % 8);
  }

  lemma {:induction false} MarkedSets(p: Params, f: Filter, key: Key, n: nat, i: nat)
    requires p.bytes > 0 && |f.data| == p.bytes && i < n <= p.hashFuncs
    ensures BitSet(Marked(p, f, key, n), Index(p, f.tweak, i, key))
    decreases n
  {
    WithBitSets(Marked(p, f, key, n - 1), Index(p, f.tweak, n - 1, key), Index(p, f.tweak, i, key));
    if i < n - 1 {
      MarkedSets(p, f, key, n - 1, i);
    }
  }

  lemma {:induction false} MarkedKeeps(p: Params, f: Filter, key: Key, n: nat, other: nat)
    requires p.bytes > 0 && |f.data| == p.bytes && n <= p.hashFuncs && other < 8 * p.bytes
    requires BitSet(f.data, other)
    ensures BitSet(Marked(p, f, key, n), other)
    decreases n
  {
    if n > 0 {
      MarkedKeeps(p, f, key, n - 1, other);
      WithBitSets(Marked(p, f, key, n - 1), Index(p, f.tweak, n - 1, key), other);
    }
  }

  /** No false negatives: the key is found, and every key found before still is. */
  lemma InsertedContains(p: Params, f: Filter, key: Key, other: Key)
    requires p.bytes > 0 && |f.data| == p.bytes
    ensures Contained(p, Inserted(p, f, key), key)
    ensures Contained(p, f, other) ==> Contained(p, Inserted(p, f, key), other)
  {
    if !f.full {
      var g := Inserted(p, f, key);
      forall i | 0 <= i < p.hashFuncs ensures BitSet(g.data, Index(p, f.tweak, i, key)) {
        MarkedSets(p, f, key, p.hashFuncs, i);
      }
      if Contained(p, f, other) {
        forall i | 0 <= i < p.hashFuncs ensures BitSet(g.data, Index(p, f.tweak, i, other)) {
          MarkedKeeps(p, f, key, p.hashFuncs, Index(p, f.tweak, i, other));
        }
      }
    }
  }

  // ----- the rolling filter ------------------------------------------------------------------------------------------

  /** b1, b2 and nInsertions. */
  datatype Rolling = Rolling(b1: Filter, b2: Filter, insertions: nat)

  ghost predicate Sized(p: Params, r: Rolling) {
    p.bytes > 0 && |r.b1.data| == p.bytes && |r.b2.data| == p.bytes
  }

  function Reset(p: Params, tweak: nat): Rolling {
    var f := Filter(seq(p.bytes, i => 0), false, true, tweak);
    Rolling(f, f, 0)
  }

  /** One insertion, for filters of 2 n elements. */
  function Rolled(p: Params, n: nat, r: Rolling, key: Key): (s: Rolling)
    requires n > 0 && Sized(p, r)
    ensures Sized(p, s)
  {
    var b1 := if r.insertions == 0 then Cleared(r.b1) else r.b1;
    var b2 := if r.insertions != 0 && r.insertions == n then Cleared(r.b2) else r.b2;
    Rolling(Inserted(p, b1, key), Inserted(p, b2, key), if r.insertions + 1 == 2 * n then 0 else r.insertions + 1)
  }

  predicate RollingContained(p: Params, n: nat, r: Rolling, key: Key)
    requires Sized(p, r)
  {
    if r.insertions < n then Contained(p, r.b2, key) else Contained(p, r.b1, key)
  }

  function History(p: Params, n: nat, tweak: nat, keys: seq<Key>): (r: Rolling)
    requires n > 0 && p.bytes > 0
    ensures Sized(p, r)
  {
    if keys == [] then Reset(p, tweak) else Rolled(p, n, History(p, n, tweak, keys[..|keys| - 1]), keys[|keys| - 1])
  }

  /** A filter contains each of the last c keys. */
  ghost predicate HoldsLast(p: Params, f: Filter, keys: seq<Key>, c: int)
    requires p.bytes > 0 && |f.data| == p.bytes
  {
    forall i :: 0 <= i < |keys| && |keys| - c <= i ==> Contained(p, f, keys[i])
  }

  lemma HoldsNext(p: Params, f: Filter, keys: seq<Key>, key: Key, c: int)
    requires p.bytes > 0 && |f.data| == p.bytes && HoldsLast(p, f, keys, c)
    ensures HoldsLast(p, Inserted(p, f, key), keys + [key], c + 1)
  {
    var next := keys + [key];
    forall i | 0 <= i < |next| && |next| - (c + 1) <= i ensures Contained(p, Inserted(p, f, key), next[i]) {
      InsertedContains(p, f, key, if i < |keys| then keys[i] else key);
    }
  }

  /** How many of the latest keys each filter is sure to hold, after r insertions of this round. */
  function Sure1(n: nat, r: nat): int { if r == 0 then 2 * n else r }
  function Sure2(n: nat, r: nat): int { if r <= n then r + n else r - n }

  lemma {:induction false} BothHold(p: Params, n: nat, tweak: nat, keys: seq<Key>)
    requires n > 0 && p.bytes > 0
    ensures var r := History(p, n, tweak, keys);
      && r.insertions < 2 * n
      && HoldsLast(p, r.b1, keys, Sure1(n, r.insertions)) && HoldsLast(p, r.b2, keys, Sure2(n, r.insertions))
  {
    if keys != [] {
      var before, key := keys[..|keys| - 1], keys[|keys| - 1];
      assert before + [key] == keys;
      BothHold(p, n, tweak, before);
      var r := History(p, n, tweak, before);
      if r.insertions == 0 {
        HoldsNext(p, Cleared(r.b1), before, key, 0);
      } else {
        HoldsNext(p, r.b1, before, key, Sure1(n, r.insertions));
      }
      if r.insertions == n {
        HoldsNext(p, Cleared(r.b2), before, key, 0);
      } else {
        HoldsNext(p, r.b2, before, key, Sure2(n, r.insertions));
      }
    }
  }

  /** Whatever was inserted since the last reset, each of the last n keys is found. */
  lemma LastKeysFound(p: Params, n: nat, tweak: nat, keys: seq<Key>, i: nat)
    requires n > 0 && p.bytes > 0 && i < |keys| && |keys| - n <= i
    ensures RollingContained(p, n, History(p, n, tweak, keys), keys[i])
  {
    BothHold(p, n, tweak, keys);
  }

  // ----- what is forgotten ---------------------------------------------------------------------------------------------

  /** Some hash function selects this bit for the key. */
  ghost predicate Selects(p: Params, tweak: nat, key: Key, bit: nat, n: nat)
    requires p.bytes > 0
  {
    exists i :: 0 <= i < n && Index(p, tweak, i, key) == bit
  }

  ghost predicate FromKeys(p: Params, tweak: nat, keys: seq<Key>, bit: nat)
    requires p.bytes > 0
  {
    exists i :: 0 <= i < |keys| && Selects(p, tweak, keys[i], bit, p.hashFuncs)
  }

  /** The bits set are those of these keys and no others. */
  ghost predicate HoldsOnly(p: Params, f: Filter, keys: seq<Key>)
    requires p.bytes > 0
  {
    && |f.data| == p.bytes && !f.full && (f.empty <==> keys == [])
    && forall bit: nat :: bit < 8 * p.bytes ==> (BitSet(f.data, bit) <==> FromKeys(p, f.tweak, keys, bit))
  }

  lemma {:induction false} ZeroBit(k: nat)
    ensures !Bit(0, k)
  {
    if k > 0 {
      ZeroBit(k - 1);
    }
  }

  lemma {:induction false} OneBit(k: nat, j: nat)
    ensures Bit(Shl(1, k), j) <==> j == k
    decreases k
  {
    if k > 0 && j > 0 {
      assert Shl(1, k) / 2 == Shl(1, k - 1);
      OneBit(k - 1, j - 1);
    } else if k == 0 && j > 0 {
      ZeroBit(j - 1);
    }
  }

  /** Setting a bit sets no other. */
  lemma WithBitExact(data: seq<nat>, index: nat, other: nat)
    requires index < 8 * |data| && other < 8 * |data|
    ensures BitSet(WithBit(data, index), other) <==> other == index || BitSet(data, other)
  {
    OrBit(data[index / 8], Shl(1, index % 8), other % 8);
    OneBit(index % 8, other % 8);
  }

  lemma {:induction false} MarkedExact(p: Params, f: Filter, key: Key, n: nat, bit: nat)
    requires p.bytes > 0 && |f.data| == p.bytes && n <= p.hashFuncs && bit < 8 * p.bytes
    ensures BitSet(Marked(p, f, key, n), bit) <==> BitSet(f.data, bit) || Selects(p, f.tweak, key, bit, n)
    decreases n
  {
    if n > 0 {
      MarkedExact(p, f, key, n - 1, bit);
      WithBitExact(Marked(p, f, key, n - 1), Index(p, f.tweak, n - 1, key), bit);
      assert Index(p, f.tweak, n - 1, key) == bit ==> Selects(p, f.tweak, key, bit, n);
    }
  }

  lemma ClearedHolds(p: Params, f: Filter)
    requires p.bytes > 0 && |f.data| == p.bytes
    ensures HoldsOnly(p, Cleared(f), [])
  {
    forall bit: nat | bit < 8 * p.bytes ensures !BitSet(Cleared(f).data, bit) {
      ZeroBit(bit % 8);
    }
  }

  lemma InsertedHolds(p: Params, f: Filter, keys: seq<Key>, key: Key)
    requires p.bytes > 0 && HoldsOnly(p, f, keys)
    ensures HoldsOnly(p, Inserted(p, f, key), keys + [key])
  {
    var g := Inserted(p, f, key);
    forall bit: nat | bit < 8 * p.bytes ensures BitSet(g.data, bit) <==> FromKeys(p, f.tweak, keys + [key], bit) {
      MarkedExact(p, f, key, p.hashFuncs, bit);
      OneMoreKey(p, f.tweak, keys, key, bit);
    }
  }

  lemma OneMoreKey(p: Params, tweak: nat, keys: seq<Key>, key: Key, bit: nat)
    requires p.bytes > 0
    ensures FromKeys(p, tweak, keys + [key], bit) <==> FromKeys(p, tweak, keys, bit) || Selects(p, tweak, key, bit, p.hashFuncs)
  {
    var more := keys + [key];
    if FromKeys(p, tweak, keys, bit) {
      var i :| 0 <= i < |keys| && Selects(p, tweak, keys[i], bit, p.hashFuncs);
      assert more[i] == keys[i];
    }
    if Selects(p, tweak, key, bit, p.hashFuncs) {
      assert more[|keys|] == key;
    }
  }

  /** The last c keys, or all if there are fewer. */
  function Latest(keys: seq<Key>, c: nat): seq<Key> { if |keys| <= c then keys else keys[|keys| - c..] }

  lemma LatestNext(keys: seq<Key>, key: Key, c: nat)
    ensures Latest(keys + [key], c + 1) == Latest(keys, c) + [key]
    ensures Latest(keys + [key], 1) == [key]
  {
  }

  lemma WholeTurns(d: int, m: nat)
    ensures d >= 1 ==> d * m >= m
    ensures d <= -1 ==> d * m + m <= 0
  {
    if d >= 1 {
      assert (d - 1) * m >= 0;
    } else if d <= -1 {
      assert (-1 - d) * m >= 0;
    }
  }

  lemma OneRest(m: nat, a: int, r: nat, b: int, s: nat)
    requires r < m && s < m && a * m + r == b * m + s
    ensures r == s
  {
    WholeTurns(a - b, m);
    assert (a - b) * m == a * m - b * m;
  }

  lemma Turns(x: nat, m: nat) returns (q: nat, r: nat)
    requires m > 0
    ensures x == q * m + r && r == x % m < m
  {
    q, r := x / m, x % m;
  }

  lemma ModIs(x: nat, m: nat, q: nat, r: nat)
    requires r < m && x == q * m + r
    ensures x % m == r
  {
    var a, s := Turns(x, m);
    OneRest(m, a, s, q, r);
  }

  lemma ModNext(x: nat, m: nat)
    requires m > 0
    ensures (x + 1) % m == if x % m + 1 == m then 0 else x % m + 1
  {
    var q, r := Turns(x, m);
    if r + 1 == m {
      NextTurn(q, m);
      ModIs(x + 1, m, q + 1, 0);
    } else {
      ModIs(x + 1, m, q, r + 1);
    }
  }

  lemma NextTurn(q: nat, m: nat)
    ensures (q + 1) * m == q * m + m
  {
  }

  /** nInsertions counts modulo 2 n. */
  lemma {:induction false} InsertionsCount(p: Params, n: nat, m: nat, tweak: nat, keys: seq<Key>)
    requires n > 0 && p.bytes > 0 && m == 2 * n
    ensures History(p, n, tweak, keys).insertions == |keys| % m
  {
    if keys == [] {
      ModIs(0, m, 0, 0);
    } else {
      InsertionsCount(p, n, m, tweak, keys[..|keys| - 1]);
      CountNext(p, n, m, History(p, n, tweak, keys[..|keys| - 1]), |keys| - 1, keys[|keys| - 1]);
    }
  }

  lemma CountNext(p: Params, n: nat, m: nat, r: Rolling, k: nat, key: Key)
    requires n > 0 && Sized(p, r) && m == 2 * n && r.insertions == k % m
    ensures Rolled(p, n, r, key).insertions == (k + 1) % m
  {
    ModNext(k, m);
  }

  /** After any keys each filter has the bits of a known number of the latest ones and no others. */
  lemma {:induction false} BothHoldOnly(p: Params, n: nat, tweak: nat, keys: seq<Key>)
    requires n > 0 && p.bytes > 0
    ensures var r := History(p, n, tweak, keys);
      && r.insertions < 2 * n && r.b1.tweak == r.b2.tweak == tweak
      && HoldsOnly(p, r.b1, Latest(keys, Sure1(n, r.insertions))) && HoldsOnly(p, r.b2, Latest(keys, Sure2(n, r.insertions)))
  {
    if keys == [] {
      var f := Filter(seq(p.bytes, i => 0), false, true, tweak);
      ClearedHolds(p, f);
      assert Cleared(f) == f;
    } else {
      var before, key := keys[..|keys| - 1], keys[|keys| - 1];
      assert before + [key] == keys;
      BothHoldOnly(p, n, tweak, before);
      var r := History(p, n, tweak, before);
      FirstNext(p, n, r.b1, r.insertions, before, key);
      SecondNext(p, n, r.b2, r.insertions, before, key);
    }
  }

  lemma KeptNext(p: Params, f: Filter, before: seq<Key>, key: Key, c: nat)
    requires p.bytes > 0 && |f.data| == p.bytes && HoldsOnly(p, f, Latest(before, c))
    ensures HoldsOnly(p, Inserted(p, f, key), Latest(before + [key], c + 1))
  {
    InsertedHolds(p, f, Latest(before, c), key);
    LatestNext(before, key, c);
  }

  lemma ClearedNext(p: Params, f: Filter, before: seq<Key>, key: Key)
    requires p.bytes > 0 && |f.data| == p.bytes
    ensures HoldsOnly(p, Inserted(p, Cleared(f), key), Latest(before + [key], 1))
  {
    ClearedHolds(p, f);
    InsertedHolds(p, Cleared(f), [], key);
    LatestNext(before, key, 0);
    assert [] + [key] == [key];
  }

  lemma FirstNext(p: Params, n: nat, f: Filter, r: nat, before: seq<Key>, key: Key)
    requires p.bytes > 0 && |f.data| == p.bytes && r < 2 * n && HoldsOnly(p, f, Latest(before, Sure1(n, r)))
    ensures HoldsOnly(p, Inserted(p, if r == 0 then Cleared(f) else f, key),
                      Latest(before + [key], Sure1(n, if r + 1 == 2 * n then 0 else r + 1)))
  {
    if r == 0 {
      ClearedNext(p, f, before, key);
    } else {
      KeptNext(p, f, before, key, r);
    }
  }

  lemma SecondNext(p: Params, n: nat, f: Filter, r: nat, before: seq<Key>, key: Key)
    requires p.bytes > 0 && |f.data| == p.bytes && r < 2 * n && HoldsOnly(p, f, Latest(before, Sure2(n, r)))
    ensures HoldsOnly(p, Inserted(p, if r == n then Cleared(f) else f, key),
                      Latest(before + [key], Sure2(n, if r + 1 == 2 * n then 0 else r + 1)))
  {
    if r == n {
      ClearedNext(p, f, before, key);
    } else {
      KeptNext(p, f, before, key, Sure2(n, r));
    }
  }

  /** Every bit of the key is a bit of one of these keys. */
  ghost predicate Covered(p: Params, tweak: nat, keys: seq<Key>, key: Key)
    requires p.bytes > 0
  {
    keys != [] && forall i :: 0 <= i < p.hashFuncs ==> FromKeys(p, tweak, keys, Index(p, tweak, i, key))
  }

  /** The reply depends on the last n + |keys| % n keys only: older ones are forgotten. */
  lemma ExactAnswer(p: Params, n: nat, tweak: nat, keys: seq<Key>, key: Key)
    requires n > 0 && p.bytes > 0
    ensures RollingContained(p, n, History(p, n, tweak, keys), key) <==> Covered(p, tweak, Latest(keys, n + |keys| % n), key)
  {
    InsertionsCount(p, n, 2 * n, tweak, keys);
    HalfTurn(|keys|, n);
    AnswerAfter(p, n, tweak, keys, key, n + |keys| % n);
  }

  lemma AnswerAfter(p: Params, n: nat, tweak: nat, keys: seq<Key>, key: Key, c: nat)
    requires n > 0 && p.bytes > 0
    requires var r := History(p, n, tweak, keys).insertions; c == if r < n then r + n else r
    ensures RollingContained(p, n, History(p, n, tweak, keys), key) <==> Covered(p, tweak, Latest(keys, c), key)
  {
    BothHoldOnly(p, n, tweak, keys);
    var r := History(p, n, tweak, keys);
    FilterAnswer(p, if r.insertions < n then r.b2 else r.b1, Latest(keys, c), key);
  }

  lemma HalfTurn(k: nat, n: nat)
    requires n > 0
    ensures var r := k % (2 * n); r < 2 * n && k % n == if r < n then r else r - n
  {
    var q, r := Turns(k, 2 * n);
    TwoHalves(q, n);
    if r < n {
      ModIs(k, n, 2 * q, r);
    } else {
      ModIs(k, n, 2 * q + 1, r - n);
    }
  }

  lemma TwoHalves(q: nat, n: nat)
    ensures (2 * q) * n == q * (2 * n) && (2 * q + 1) * n == q * (2 * n) + n
  {
  }

  lemma FilterAnswer(p: Params, f: Filter, keys: seq<Key>, key: Key)
    requires p.bytes > 0 && HoldsOnly(p, f, keys)
    ensures Contained(p, f, key) <==> Covered(p, f.tweak, keys, key)
  {
  }

  // ----- the objects ----------------------------------------------------------------------------------------------------

  class BloomFilter {
    const p: Params
    var vData: seq<nat>
    var isFull: bool
    var isEmpty: bool
    var nTweak: nat

    ghost predicate Valid()
      reads this
    {
      p.bytes > 0 && |vData| == p.bytes
    }

    function F(): Filter
      reads this
    {
      Filter(vData, isFull, isEmpty, nTweak)
    }

    constructor (params: Params, tweak: nat)
      requires params.bytes > 0
      ensures p == params && Valid() && F() == Filter(seq(p.bytes, i => 0), false, true, tweak)
    {
      p := params;
      vData := seq(params.bytes, i => 0);
      isFull, isEmpty, nTweak := false, true, tweak;
    }

    method Insert(key: Key)
      requires Valid()
      modifies this
      ensures Valid() && F() == Inserted(p, old(F()), key)
    {
      if isFull {
        return;
      }
      ghost var f := F();
      var i := 0;
      while i < p.hashFuncs
        invariant 0 <= i <= p.hashFuncs && Valid() && vData == Marked(p, f, key, i)
        invariant isFull == f.full && isEmpty == f.empty && nTweak == f.tweak
      {
        var index := Index(p, nTweak, i, key);
        vData := vData[index / 8 := Or(vData[index / 8], Shl(1, index % 8))];
        i := i + 1;
      }
      isEmpty := false;
    }

    method Contains(key: Key) returns (found: bool)
      requires Valid()
      ensures found == Contained(p, F(), key)
    {
      if isFull {
        return true;
      }
      if isEmpty {
        return false;
      }
      var i := 0;
      while i < p.hashFuncs
        invariant 0 <= i <= p.hashFuncs
        invariant forall j :: 0 <= j < i ==> BitSet(vData, Index(p, nTweak, j, key))
      {
        var index := Index(p, nTweak, i, key);
        if !Bit(vData[index / 8], index % 8) {
          return false;
        }
        i := i + 1;
      }
      return true;
    }

    method Clear()
      requires Valid()
      modifies this
      ensures Valid() && F() == Cleared(old(F()))
    {
      vData := seq(|vData|, i => 0);
      isFull := false;
      isEmpty := true;
    }

    method Reset(tweak: nat)
      requires Valid()
      modifies this
      ensures Valid() && F() == Filter(seq(p.bytes, i => 0), false, true, tweak)
    {
      Clear();
      nTweak := tweak;
    }
  }

  class RollingBloomFilter {
    const p: Params
    const nElements: nat
    const b1: BloomFilter
    const b2: BloomFilter
    const nBloomSize: nat
    var nInsertions: nat
    ghost var keys: seq<Key>
    ghost var tweak: nat

    function R(): Rolling
      reads this, b1, b2
    {
      Rolling(b1.F(), b2.F(), nInsertions)
    }

    /** The filters are what the keys since the last reset make them. */
    ghost predicate Valid()
      reads this, b1, b2
    {
      && nElements > 0 && nBloomSize == 2 * nElements && b1 != b2 && b1.p == p && b2.p == p
      && b1.Valid() && b2.Valid()
      && R() == History(p, nElements, tweak, keys)
    }

    constructor (params: Params, elements: nat, newTweak: nat)
      requires params.bytes > 0 && 0 < elements < 0x8000_0000
      ensures Valid() && keys == [] && nElements == elements
    {
      p, nElements, nBloomSize := params, elements, elements * 2;
      b1 := new BloomFilter(params, newTweak);
      b2 := new BloomFilter(params, newTweak);
      nInsertions, keys, tweak := 0, [], newTweak;
    }

    method Insert(key: Key)
      requires Valid()
      modifies this, b1, b2
      ensures Valid() && keys == old(keys) + [key]
    {
      ghost var before := keys;
      BothHold(p, nElements, tweak, keys);
      assert (before + [key])[..|before|] == before;
      if nInsertions == 0 {
        b1.Clear();
      } else if nInsertions == nBloomSize / 2 {
        b2.Clear();
      }
      b1.Insert(key);
      b2.Insert(key);
      nInsertions := nInsertions + 1;
      if nInsertions == nBloomSize {
        nInsertions := 0;
      }
      keys := keys + [key];
    }

    /** Each of the last nElements keys is found. */
    method Contains(key: Key) returns (found: bool)
      requires Valid()
      ensures found == RollingContained(p, nElements, R(), key)
      ensures forall i :: 0 <= i < |keys| && |keys| - nElements <= i && keys[i] == key ==> found
      ensures found <==> Covered(p, tweak, Latest(keys, nElements + |keys| % nElements), key)
    {
      ExactAnswer(p, nElements, tweak, keys, key);
      forall i | 0 <= i < |keys| && |keys| - nElements <= i && keys[i] == key
        ensures RollingContained(p, nElements, R(), key)
      {
        LastKeysFound(p, nElements, tweak, keys, i);
      }
      if nInsertions < nBloomSize / 2 {
        found := b2.Contains(key);
        return;
      }
      found := b1.Contains(key);
    }

    method Reset(newTweak: nat)
      requires Valid()
      modifies this, b1, b2
      ensures Valid() && keys == []
    {
      b1.Reset(newTweak);
      b2.Reset(newTweak);
      nInsertions := 0;
      keys, tweak := [], newTweak;
    }
  }
}
