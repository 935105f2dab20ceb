/** The pseudo-random generator of the consensus and its shuffle. */
module RandomGen {
  import opened Base
  import BigEndian

  function Swap<T>(v: seq<T>, i: nat, j: nat): (r: seq<T>)
    requires i < |v| && j < |v|
    ensures |r| == |v|
  {
    v[i := v[j]][j := v[i]]
  }

  /** The index that step `i` of a shuffle of `n` elements swaps with, for a given seed. */
  function Target(seed: Bytes, i: nat, n: nat): (t: nat)
    requires i < n
    ensures i <= t < n
  {
    i + BigEndian.Decode(seed) % (n - i)
  }

  /** The rest of a shuffle from step `i` on. */
  function ShuffleFrom<T>(sha3: Bytes -> Bytes, v: seq<T>, i: nat, seed: Bytes): (r: seq<T>)
    ensures |r| == |v|
    decreases |v| - i
  {
    if i >= |v| then v
    else
      var next := sha3(seed);
      ShuffleFrom(sha3, Swap(v, Target(next, i, |v|), i), i + 1, next)
  }

  function Shuffled<T>(sha3: Bytes -> Bytes, v: seq<T>, seed: Bytes): seq<T> {
    ShuffleFrom(sha3, v, 0, seed)
  }

  lemma SwapPermutes<T>(v: seq<T>, i: nat, j: nat)
    requires i < |v| && j < |v|
    ensures multiset(Swap(v, i, j)) == multiset(v)
  {
  }

  /** A shuffle is a permutation, whatever the hash and the seed. */
  lemma {:induction false} ShufflePermutes<T>(sha3: Bytes -> Bytes, v: seq<T>, i: nat, seed: Bytes)
    ensures multiset(ShuffleFrom(sha3, v, i, seed)) == multiset(v)
    decreases |v| - i
  {
    if i < |v| {
      var next := sha3(seed);
      var t := Target(next, i, |v|);
      SwapPermutes(v, t, i);
      ShufflePermutes(sha3, Swap(v, t, i), i + 1, next);
    }
  }

  // ---------- The shuffle told step by step ----------

  /** The seed after `n` steps. */
  function Hashed(sha3: Bytes -> Bytes, seed: Bytes, n: nat): Bytes {
    if n == 0 then seed else sha3(Hashed(sha3, seed, n - 1))
  }

  /** `w` is `v` with positions `i` and `j` exchanged. */
  predicate Exchanged<T(==)>(v: seq<T>, w: seq<T>, i: int, j: int) {
    && |w| == |v| && 0 <= i < |v| && 0 <= j < |v|
    && w[i] == v[j] && w[j] == v[i]
    && forall k :: 0 <= k < |v| && k != i && k != j ==> w[k] == v[k]
  }

  /** Step `i` exchanges position `i` with a position from there on, chosen by the hash of the last seed. */
  predicate Step<T(==)>(sha3: Bytes -> Bytes, seed: Bytes, n: nat, states: seq<seq<T>>, i: nat)
    requires i < n && i + 1 < |states|
  {
    Exchanged(states[i], states[i + 1], i, i + BigEndian.Decode(Hashed(sha3, seed, i + 1)) % (n - i))
  }

  /** The states that a shuffle of `v` goes through. */
  predicate Steps<T(==)>(sha3: Bytes -> Bytes, v: seq<T>, seed: Bytes, states: seq<seq<T>>) {
    && |states| == |v| + 1 && states[0] == v
    && forall i :: 0 <= i < |v| ==> Step(sha3, seed, |v|, states, i)
  }

  lemma SwapExchanges<T>(v: seq<T>, i: nat, j: nat)
    requires i < |v| && j < |v|
    ensures Exchanged(v, Swap(v, j, i), i, j)
  {
  }

  lemma {:induction false} StepsLength<T>(sha3: Bytes -> Bytes, v: seq<T>, seed: Bytes, states: seq<seq<T>>, i: nat)
    requires Steps(sha3, v, seed, states) && i <= |v|
    ensures |states[i]| == |v|
  {
    if i > 0 {
      StepsLength(sha3, v, seed, states, i - 1);
      assert Step(sha3, seed, |v|, states, i - 1);
    }
  }

  /** The first `m` steps. */
  predicate FirstSteps<T(==)>(sha3: Bytes -> Bytes, v: seq<T>, seed: Bytes, states: seq<seq<T>>, m: nat) {
    && m <= |v| && |states| == m + 1 && states[0] == v
    && forall i :: 0 <= i < m ==> Step(sha3, seed, |v|, states, i)
  }

  lemma NextStep<T>(sha3: Bytes -> Bytes, v: seq<T>, seed: Bytes, states: seq<seq<T>>, m: nat)
    requires FirstSteps(sha3, v, seed, states, m) && m < |v| && |states[m]| == |v|
    ensures var t := Target(Hashed(sha3, seed, m + 1), m, |v|);
      FirstSteps(sha3, v, seed, states + [Swap(states[m], t, m)], m + 1)
  {
    var t := Target(Hashed(sha3, seed, m + 1), m, |v|);
    var more := states + [Swap(states[m], t, m)];
    SwapExchanges(states[m], m, t);
    forall i | 0 <= i <= m
      ensures Step(sha3, seed, |v|, more, i)
    {
      if i < m {
        assert Step(sha3, seed, |v|, states, i);
      }
    }
  }

  /** The shuffle goes through one state for each element and ends with the last. */
  lemma ShuffledSteps<T>(sha3: Bytes -> Bytes, v: seq<T>, seed: Bytes) returns (states: seq<seq<T>>)
    ensures Steps(sha3, v, seed, states) && states[|v|] == Shuffled(sha3, v, seed)
  {
    states := [v];
    var i := 0;
    while i < |v|
      invariant FirstSteps(sha3, v, seed, states, i) && |states[i]| == |v|
      invariant ShuffleFrom(sha3, states[i], i, Hashed(sha3, seed, i)) == Shuffled(sha3, v, seed)
    {
      NextStep(sha3, v, seed, states, i);
      assert Hashed(sha3, seed, i + 1) == sha3(Hashed(sha3, seed, i));
      states := states + [Swap(states[i], Target(Hashed(sha3, seed, i + 1), i, |v|), i)];
      i := i + 1;
    }
  }

  /** The steps leave no choice. */
  lemma {:induction false} StepsUnique<T>(
    sha3: Bytes -> Bytes, v: seq<T>, seed: Bytes, states: seq<seq<T>>, others: seq<seq<T>>, i: nat)
    requires Steps(sha3, v, seed, states) && Steps(sha3, v, seed, others) && i <= |v|
    ensures states[i] == others[i]
  {
    if i > 0 {
      StepsUnique(sha3, v, seed, states, others, i - 1);
      assert Step(sha3, seed, |v|, states, i - 1) && Step(sha3, seed, |v|, others, i - 1);
    }
  }

  /** A list is the shuffle exactly if the steps lead there. */
  lemma ShuffledIff<T(!new)>(sha3: Bytes -> Bytes, v: seq<T>, seed: Bytes, w: seq<T>)
    ensures w == Shuffled(sha3, v, seed) <==> exists states :: Steps(sha3, v, seed, states) && states[|v|] == w
  {
    var shuffle := ShuffledSteps(sha3, v, seed);
    forall states | Steps(sha3, v, seed, states)
      ensures states[|v|] == shuffle[|v|]
    {
      StepsUnique(sha3, v, seed, states, shuffle, |v|);
    }
  }

  /** A position is decided once its step is done. */
  lemma {:induction false} StepsSettle<T>(sha3: Bytes -> Bytes, v: seq<T>, seed: Bytes, states: seq<seq<T>>, i: nat, n: nat)
    requires Steps(sha3, v, seed, states) && i < n <= |v|
    ensures |states[i + 1]| == |states[n]| == |v| && states[n][i] == states[i + 1][i]
    decreases n
  {
    StepsLength(sha3, v, seed, states, i + 1);
    StepsLength(sha3, v, seed, states, n);
    if n > i + 1 {
      StepsSettle(sha3, v, seed, states, i, n - 1);
      assert Step(sha3, seed, |v|, states, n - 1);
    }
  }

  /** The first element of a shuffle is the one that the hash of the seed points at. */
  lemma FirstOfShuffle<T>(sha3: Bytes -> Bytes, v: seq<T>, seed: Bytes)
    requires v != []
    ensures Shuffled(sha3, v, seed)[0] == v[BigEndian.Decode(sha3(seed)) % |v|]
  {
    var states := ShuffledSteps(sha3, v, seed);
    StepsSettle(sha3, v, seed, states, 0, |v|);
    assert Step(sha3, seed, |v|, states, 0);
    assert Hashed(sha3, seed, 1) == sha3(Hashed(sha3, seed, 0));
  }

  /** Every element can come first: a seed whose hash is congruent to its position puts it there. */
  lemma AnyCanBeFirst<T>(sha3: Bytes -> Bytes, v: seq<T>, seed: Bytes, k: nat)
    requires k < |v| && BigEndian.Decode(sha3(seed)) % |v| == k
    ensures Shuffled(sha3, v, seed)[0] == v[k]
  {
    FirstOfShuffle(sha3, v, seed);
  }

  /** Shuffles in place, never swapping out of range, and returns the seed it arrives at. */
  method Shuffle<T>(sha3: Bytes -> Bytes, v: array<T>, seed: Bytes) returns (last: Bytes)
    modifies v
    ensures v[..] == Shuffled(sha3, old(v[..]), seed)
    ensures multiset(v[..]) == multiset(old(v[..]))
    ensures v.Length > 0 ==> v[0] == old(v[..])[BigEndian.Decode(sha3(seed)) % v.Length]
    ensures last == Hashed(sha3, seed, v.Length)
    ensures exists states :: Steps(sha3, old(v[..]), seed, states) && states[v.Length] == v[..]
  {
    last := seed;
    for i := 0 to v.Length
      invariant ShuffleFrom(sha3, v[..], i, last) == Shuffled(sha3, old(v[..]), seed)
      invariant last == Hashed(sha3, seed, i)
    {
      last := sha3(last);
      assert last == Hashed(sha3, seed, i + 1);
      var n := Target(last, i, v.Length);
      ghost var before := v[..];
      v[n], v[i] := v[i], v[n];
      assert v[..] == Swap(before, n, i);
    }
    ShufflePermutes(sha3, old(v[..]), 0, seed);
    if v.Length > 0 {
      FirstOfShuffle(sha3, old(v[..]), seed);
    }
    ghost var states := ShuffledSteps(sha3, old(v[..]), seed);
  }
}
