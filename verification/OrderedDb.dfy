/** The ordered key-value store: finding the last key that begins with a prefix. */
module OrderedDb {
  import opened Base
  import BigEndian

  /** Keys are ordered byte by byte; a prefix of a key comes before it. */
  predicate Leq(a: Bytes, b: Bytes) {
    a == [] || (b != [] && (a[0] < b[0] || (a[0] == b[0] && Leq(a[1..], b[1..]))))
  }

  lemma {:induction false} LeqTotal(a: Bytes, b: Bytes)
    ensures Leq(a, b) || Leq(b, a)
    ensures Leq(a, b) && Leq(b, a) ==> a == b
  {
    if a != [] && b != [] && a[0] == b[0] {
      LeqTotal(a[1..], b[1..]);
      assert a == [a[0]] + a[1..] && b == [b[0]] + b[1..];
    }
  }

  lemma {:induction false} LeqTransitive(a: Bytes, b: Bytes, c: Bytes)
    requires Leq(a, b) && Leq(b, c)
    ensures Leq(a, c)
  {
    if a != [] && a[0] == b[0] == c[0] {
      LeqTransitive(a[1..], b[1..], c[1..]);
    }
  }

  // ---------- The next prefix ----------

  /** The prefix counted up by one as a number of fixed width, and whether it went over. */
  function Increment(p: Bytes): (r: (Bytes, bool))
    ensures |r.0| == |p|
  {
    if p == [] then ([], true)
    else
      var (rest, carry) := Increment(p[1..]);
      if !carry then ([p[0]] + rest, false)
      else if p[0] == 0xFF then ([0] + rest, true)
      else ([p[0] + 1] + rest, false)
  }

  /** A byte counted up by one. */
  function NextByte(b: byte): byte {
    if b == 0xFF then 0 else b + 1
  }

  /** The bytes behind `i` are counted up, and whether they went over. */
  ghost predicate Counting(p: Bytes, next: Bytes, i: int, overflow: bool) {
    && -1 <= i < |p| == |next|
    && if overflow then next[..i + 1] == p[..i + 1] && Increment(p[i + 1..]) == (next[i + 1..], true)
       else Increment(p) == (next, false)
  }

  /** Counts up in place from the last byte on, as long as bytes go over. */
  method IncrementInPlace(p: Bytes) returns (next: Bytes, overflow: bool)
    requires p != []
    ensures (next, overflow) == Increment(p)
  {
    next := p;
    var i := |p| - 1;
    overflow := true;
    CountingStarts(p);
    while overflow && i >= 0
      invariant Counting(p, next, i, overflow)
      decreases i
    {
      CountingStep(p, next, i);
      next := next[i := NextByte(next[i])];
      overflow := next[i] == 0;
      i := i - 1;
    }
    CountingEnds(p, next, i, overflow);
  }

  lemma CountingStarts(p: Bytes)
    ensures Counting(p, p, |p| - 1, true)
  {
    assert p[|p|..] == [];
  }

  lemma CountingStep(p: Bytes, next: Bytes, i: nat)
    requires Counting(p, next, i, true)
    ensures var b := NextByte(next[i]); Counting(p, next[i := b], i - 1, b == 0)
  {
    var b := NextByte(next[i]);
    IncrementByte(p, next, i);
    if b != 0 {
      NoCarry(p, next[i := b], i);
    }
  }

  lemma CountingEnds(p: Bytes, next: Bytes, i: int, overflow: bool)
    requires Counting(p, next, i, overflow) && (overflow ==> i == -1)
    ensures (next, overflow) == Increment(p)
  {
    assert next[0..] == next && p[0..] == p;
  }

  /** The byte before those that went over. */
  lemma IncrementByte(p: Bytes, next: Bytes, i: nat)
    requires Counting(p, next, i, true)
    ensures var b := NextByte(next[i]);
      next[i := b][..i] == p[..i] && (next[i := b][i..], b == 0) == Increment(p[i..])
  {
    var b := NextByte(next[i]);
    var after := next[i := b];
    assert next[i] == next[..i + 1][i] == p[..i + 1][i] == p[i];
    assert p[i..][1..] == p[i + 1..] && after[i..] == [after[i]] + next[i + 1..];
    assert after[..i] == next[..i + 1][..i] == p[..i + 1][..i] == p[..i];
  }

  lemma {:induction false} NoCarry(p: Bytes, next: Bytes, i: nat)
    requires i <= |p| == |next| && next[..i] == p[..i] && (next[i..], false) == Increment(p[i..])
    ensures (next, false) == Increment(p)
  {
    if i == 0 {
      assert next[0..] == next && p[0..] == p;
    } else {
      assert next[i - 1] == next[..i][i - 1] == p[i - 1];
      assert p[i - 1..][1..] == p[i..] && next[i - 1..] == [p[i - 1]] + next[i..];
      assert next[..i - 1] == next[..i][..i - 1] == p[..i - 1];
      NoCarry(p, next, i - 1);
    }
  }

  /** A key behind all keys with the prefix but not behind the counted-up prefix: a beginning of the
      counted-up prefix that cuts off only zeros that went over. */
  predicate InGap(p: Bytes, k: Bytes) {
    && p != []
    && k != []
    && var (rest, carry) := Increment(p[1..]);
    if carry then k[0] as int == p[0] as int + 1 && |k| <= |p| && AllZero(k[1..]) else k[0] == p[0] && InGap(p[1..], k[1..])
  }

  predicate AllZero(k: Bytes) {
    forall i :: 0 <= i < |k| ==> k[i] == 0
  }

  lemma {:induction false} CarryBytes(p: Bytes)
    requires Increment(p).1
    ensures (forall i :: 0 <= i < |p| ==> p[i] == 0xFF) && AllZero(Increment(p).0)
  {
    if p != [] {
      CarryBytes(p[1..]);
      assert forall i :: 1 <= i < |p| ==> p[i] == p[1..][i - 1];
    }
  }

  /** Nothing comes behind a prefix of bytes 0xFF but the keys that begin with it. */
  lemma {:induction false} BehindFull(p: Bytes, k: Bytes)
    requires Leq(p, k) && forall i :: 0 <= i < |p| ==> p[i] == 0xFF
    ensures p <= k
  {
    if p != [] {
      BehindFull(p[1..], k[1..]);
      assert p == [p[0]] + p[1..] && k == [k[0]] + k[1..];
    }
  }

  lemma {:induction false} BeforeZeros(k: Bytes, z: Bytes)
    requires AllZero(z)
    ensures Leq(k, z) <==> AllZero(k) && |k| <= |z|
  {
    if k != [] && z != [] {
      BeforeZeros(k[1..], z[1..]);
      assert AllZero(k) <==> k[0] == 0 && AllZero(k[1..]) by {
        assert forall i :: 1 <= i < |k| ==> k[i] == k[1..][i - 1];
      }
    }
  }

  /** Between a prefix and the counted-up prefix lie the keys with that prefix, and the gap. */
  lemma {:induction false} Between(p: Bytes, k: Bytes)
    requires p != [] && !Increment(p).1
    ensures Leq(p, k) && Leq(k, Increment(p).0) <==> p <= k || InGap(p, k)
  {
    var (rest, carry) := Increment(p[1..]);
    if k != [] {
      assert p <= k <==> p[0] == k[0] && p[1..] <= k[1..];
      if carry {
        CarryBytes(p[1..]);
        BeforeZeros(k[1..], rest);
        if k[0] == p[0] && Leq(p[1..], k[1..]) {
          BehindFull(p[1..], k[1..]);
        }
        if p <= k {
          PrefixLeq(p[1..], k[1..]);
        }
      } else {
        Between(p[1..], k[1..]);
      }
    }
  }

  lemma {:induction false} PrefixLeq(p: Bytes, k: Bytes)
    requires p <= k
    ensures Leq(p, k)
  {
    if p != [] {
      PrefixLeq(p[1..], k[1..]);
    }
  }

  // ---------- Seeking ----------

  type Db = map<Bytes, Bytes>

  /** The last of some keys. */
  ghost predicate IsLast(keys: set<Bytes>, last: Bytes) {
    last in keys && forall k :: k in keys ==> Leq(k, last)
  }

  ghost predicate LastAmong(keys: set<Bytes>, last: Option<Bytes>) {
    if last.None? then keys == {} else IsLast(keys, last.value)
  }

  function UpTo(db: Db, target: Bytes): set<Bytes> {
    set k | k in db && Leq(k, target)
  }

  /** The last key that is not behind the target, if there is any. */
  method SeekForPrev(db: Db, target: Bytes) returns (key: Option<Bytes>)
    ensures LastAmong(UpTo(db, target), key)
  {
    key := LastOf(UpTo(db, target));
  }

  method SeekToLast(db: Db) returns (key: Option<Bytes>)
    ensures LastAmong(db.Keys, key)
  {
    key := LastOf(db.Keys);
  }

  method LastOf(keys: set<Bytes>) returns (key: Option<Bytes>)
    ensures LastAmong(keys, key)
  {
    var rest, seen := keys, {};
    key := None;
    while rest != {}
      invariant seen + rest == keys
      invariant LastAmong(seen, key)
      decreases |rest|
    {
      var k :| k in rest;
      LastAmongMore(seen, key, k);
      key := if key.None? || Leq(key.value, k) then Some(k) else key;
      rest, seen := rest - {k}, seen + {k};
    }
  }

  lemma LastAmongMore(seen: set<Bytes>, last: Option<Bytes>, k: Bytes)
    requires LastAmong(seen, last)
    ensures LastAmong(seen + {k}, if last.None? || Leq(last.value, k) then Some(k) else last)
  {
    LeqTotal(k, k);
    if last.Some? {
      LeqTotal(k, last.value);
      if Leq(last.value, k) {
        forall other | other in seen
          ensures Leq(other, k)
        {
          LeqTransitive(other, last.value, k);
        }
      }
    }
  }

  function WithPrefix(db: Db, p: Bytes): set<Bytes> {
    set k | k in db && p <= k
  }

  /** No stored key lies in the gap behind the prefix. */
  ghost predicate NoGapKeys(db: Db, p: Bytes) {
    Increment(p).1 || forall k :: k in db ==> !InGap(p, k)
  }

  /** What the lookup promises: the value of the last key with the prefix, or nothing. */
  ghost predicate IsLastByPrefix(db: Db, p: Bytes, value: Bytes) {
    if WithPrefix(db, p) == {} then value == []
    else exists k :: IsLast(WithPrefix(db, p), k) && value == db[k]
  }

  /** Finds the value of the last key with a prefix, unless a key in the gap is in the way: then it
      finds nothing. */
  method GetLastByPrefix(db: Db, p: Bytes) returns (value: Bytes)
    requires p != []
    ensures if NoGapKeys(db, p) then IsLastByPrefix(db, p, value) else value == []
  {
    var next, overflow := IncrementInPlace(p);
    var key;
    if overflow {
      key := SeekToLast(db);
    } else {
      key := SeekForPrev(db, next);
    }
    if key.None? || !(p <= key.value) {
      NothingFound(db, p, key);
      return [];
    }
    SomethingFound(db, p, key.value);
    return db[key.value];
  }

  ghost predicate Sought(db: Db, p: Bytes, key: Option<Bytes>) {
    var (next, overflow) := Increment(p);
    LastAmong(if overflow then db.Keys else UpTo(db, next), key)
  }

  lemma Candidate(db: Db, p: Bytes, k: Bytes)
    requires p != [] && k in db
    ensures p <= k ==> Leq(p, k) && (!Increment(p).1 ==> Leq(k, Increment(p).0))
    ensures Leq(p, k) && Increment(p).1 ==> p <= k
  {
    if p <= k {
      PrefixLeq(p, k);
    }
    if Increment(p).1 {
      CarryBytes(p);
      if Leq(p, k) {
        BehindFull(p, k);
      }
    } else {
      Between(p, k);
    }
  }

  lemma NothingFound(db: Db, p: Bytes, key: Option<Bytes>)
    requires p != [] && Sought(db, p, key) && (key.None? || !(p <= key.value))
    ensures NoGapKeys(db, p) ==> WithPrefix(db, p) == {}
  {
    if NoGapKeys(db, p) {
      forall k | k in db
        ensures !(p <= k)
      {
        Candidate(db, p, k);
        if p <= k {
          assert k in if Increment(p).1 then db.Keys else UpTo(db, Increment(p).0);
          LeqTransitive(p, k, key.value);
          Candidate(db, p, key.value);
          if !Increment(p).1 {
            Between(p, key.value);
          }
        }
      }
    }
  }

  lemma SomethingFound(db: Db, p: Bytes, key: Bytes)
    requires p != [] && Sought(db, p, Some(key)) && p <= key
    ensures NoGapKeys(db, p) && IsLast(WithPrefix(db, p), key)
  {
    forall k | k in db
      ensures p <= k ==> Leq(k, key)
      ensures !Increment(p).1 ==> !InGap(p, k)
    {
      Candidate(db, p, k);
      if !Increment(p).1 && InGap(p, k) {
        Between(p, k);
        GapBehind(p, k, key);
        LeqTotal(k, key);
        assert false;
      }
    }
  }

  /** A key in the gap comes behind every key with the prefix. */
  lemma {:induction false} GapBehind(p: Bytes, gap: Bytes, k: Bytes)
    requires p != [] && !Increment(p).1 && InGap(p, gap) && p <= k
    ensures !Leq(gap, k)
  {
    var (rest, carry) := Increment(p[1..]);
    if !carry {
      assert p[1..] <= k[1..];
      GapBehind(p[1..], gap[1..], k[1..]);
    }
  }

  // ---------- Heights as keys ----------

  lemma DigitOrder(x: nat, u: nat, y: nat, v: nat, w: nat)
    requires u < w && v < w
    ensures x * w + u <= y * w + v <==> x < y || (x == y && u <= v)
  {
    if x < y {
      Multiples(x, y, w);
    } else if y < x {
      Multiples(y, x, w);
    }
  }

  /** Big-endian numbers of one width are ordered like the numbers. */
  lemma {:induction false} NumberOrder(a: Bytes, b: Bytes)
    requires |a| == |b|
    ensures Leq(a, b) <==> BigEndian.Decode(a) <= BigEndian.Decode(b)
  {
    if a != [] {
      var u, v := BigEndian.Decode(a[1..]), BigEndian.Decode(b[1..]);
      NumberOrder(a[1..], b[1..]);
      FirstByte(a);
      FirstByte(b);
      BigEndian.DecodeBound(a[1..]);
      BigEndian.DecodeBound(b[1..]);
      DigitOrder(a[0], u, b[0], v, BigEndian.Power256(|a| - 1));
    }
  }

  lemma {:induction false} FirstByte(s: Bytes)
    requires s != []
    ensures BigEndian.Decode(s) == s[0] * BigEndian.Power256(|s| - 1) + BigEndian.Decode(s[1..])
  {
    if |s| == 1 {
      assert s[..0] == [] && s[1..] == [];
    } else {
      var front := s[..|s| - 1];
      FirstByte(front);
      assert front[1..] == s[1..][..|s| - 2];
      var w := BigEndian.Power256(|s| - 2);
      assert BigEndian.Power256(|s| - 1) == 256 * w;
      assert (s[0] * w) * 256 == s[0] * (256 * w);
    }
  }

  lemma {:induction false} SharedPrefix(p: Bytes, a: Bytes, b: Bytes)
    ensures Leq(p + a, p + b) <==> Leq(a, b)
  {
    if p == [] {
      assert p + a == a && p + b == b;
    } else {
      SharedPrefix(p[1..], a, b);
      assert (p + a)[1..] == p[1..] + a && (p + b)[1..] == p[1..] + b;
    }
  }

  /** The key under which a block hash is stored by height. */
  function HeightKey(p: Bytes, height: nat): Bytes {
    p + BigEndian.Encode(height, 8)
  }

  lemma HeightKeyOrder(p: Bytes, a: nat, b: nat)
    requires a < TWO_TO_64 && b < TWO_TO_64
    ensures Leq(HeightKey(p, a), HeightKey(p, b)) <==> a <= b
  {
    SharedPrefix(p, BigEndian.Encode(a, 8), BigEndian.Encode(b, 8));
    NumberOrder(BigEndian.Encode(a, 8), BigEndian.Encode(b, 8));
    EightBytes();
    BigEndian.DecodeEncode(a, 8);
    BigEndian.DecodeEncode(b, 8);
  }

  lemma EightBytes()
    ensures BigEndian.Power256(8) == TWO_TO_64
  {
    assert BigEndian.Power256(4) == 0x1_0000_0000;
    assert BigEndian.Power256(8) == 256 * (256 * (256 * (256 * BigEndian.Power256(4))));
  }

  /** The keys with the prefix are those of the heights below `n`, each with its own value. */
  ghost predicate HoldsHeights(db: Db, p: Bytes, values: seq<Bytes>) {
    && (forall k :: k in db && p <= k ==> exists h :: 0 <= h < |values| && k == HeightKey(p, h))
    && (forall h :: 0 <= h < |values| ==> HeightKey(p, h) in db && db[HeightKey(p, h)] == values[h])
  }

  /** The keys with the prefix are those of heights up to `tip`, which is one of them. */
  ghost predicate EndsAt(db: Db, p: Bytes, tip: nat) {
    && tip < TWO_TO_64 && HeightKey(p, tip) in db
    && forall k :: k in db && p <= k ==> exists h :: 0 <= h <= tip && k == HeightKey(p, h)
  }

  /** The last key with the prefix belongs to the greatest height. */
  lemma GreatestFound(db: Db, p: Bytes, tip: nat, value: Bytes)
    requires EndsAt(db, p, tip) && IsLastByPrefix(db, p, value)
    ensures value == db[HeightKey(p, tip)]
  {
    assert HeightKey(p, tip) in WithPrefix(db, p);
    var k :| IsLast(WithPrefix(db, p), k) && value == db[k];
    var h :| 0 <= h <= tip && k == HeightKey(p, h);
    HeightKeyOrder(p, tip, h);
  }

  /** Reopening the store finds the value of the greatest height. */
  lemma TipFound(db: Db, p: Bytes, values: seq<Bytes>, value: Bytes)
    requires HoldsHeights(db, p, values) && |values| <= TWO_TO_64 && IsLastByPrefix(db, p, value)
    ensures value == if values == [] then [] else values[|values| - 1]
  {
    if values == [] {
      assert WithPrefix(db, p) == {};
    } else {
      GreatestFound(db, p, |values| - 1, value);
    }
  }
}
