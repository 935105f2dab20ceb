/** Random deterministic proof of stake: who may take part in a round, what a round's block must
    contain, and the leader schedule that the block's randomness decides. */
module RdPoS {
  import opened Base
  import opened ValidatorPool
  import opened RandomGen
  import BigEndian

  datatype TxStatus = ValidNew | ValidExisting | InvalidUnexpected | InvalidRedundant

  datatype Block = Block(leader: Address, height: nat, randomness: Bytes, txValidators: seq<TxValidator>)

  const ZERO_HASH: Bytes := seq(32, _ => 0)

  // ---------- Ordered sets of validators ----------

  predicate StrictlySorted(v: seq<Address>) {
    forall i, j :: 0 <= i < j < |v| ==> v[i] < v[j]
  }

  /** Insertion into an ordered set. */
  function Insert(v: seq<Address>, a: Address): seq<Address> {
    if v == [] then [a]
    else if a < v[0] then [a] + v
    else if a == v[0] then v
    else [v[0]] + Insert(v[1..], a)
  }

  function InsertAll(v: seq<Address>, entries: seq<Address>): seq<Address>
    decreases entries
  {
    if entries == [] then v else InsertAll(Insert(v, entries[0]), entries[1..])
  }

  lemma {:induction false} InsertMembers(v: seq<Address>, a: Address, x: Address)
    ensures x in Insert(v, a) <==> x in v || x == a
  {
    if v != [] && a > v[0] {
      InsertMembers(v[1..], a, x);
      assert x in v <==> x == v[0] || x in v[1..];
    }
  }

  lemma {:induction false} InsertSorts(v: seq<Address>, a: Address)
    requires StrictlySorted(v)
    ensures StrictlySorted(Insert(v, a))
    ensures forall x :: x in Insert(v, a) <==> x in v || x == a
  {
    if v != [] && a > v[0] {
      InsertSorts(v[1..], a);
      var rest := Insert(v[1..], a);
      forall i | 0 <= i < |rest|
        ensures v[0] < rest[i]
      {
        InsertMembers(v[1..], a, rest[i]);
        assert rest[i] in rest;
      }
    }
    forall x: Address
      ensures x in Insert(v, a) <==> x in v || x == a
    {
      InsertMembers(v, a, x);
    }
  }

  lemma {:induction false} InsertAllSorts(v: seq<Address>, entries: seq<Address>)
    requires StrictlySorted(v)
    ensures StrictlySorted(InsertAll(v, entries))
    ensures forall x :: x in InsertAll(v, entries) <==> x in v || x in entries
    decreases entries
  {
    if entries != [] {
      InsertSorts(v, entries[0]);
      InsertAllSorts(Insert(v, entries[0]), entries[1..]);
      assert entries == [entries[0]] + entries[1..];
    }
  }

  /** An ordered set has only one listing. */
  lemma {:induction false} SortedUnique(v: seq<Address>, w: seq<Address>)
    requires StrictlySorted(v) && StrictlySorted(w)
    requires forall x :: x in v <==> x in w
    ensures v == w
  {
    if v == [] {
      assert forall i :: 0 <= i < |w| ==> w[i] in v;
    } else {
      assert v[0] in w && w != [];
      assert w[0] in v;
      assert v[0] == w[0];
      assert v == [v[0]] + v[1..] && w == [w[0]] + w[1..];
      forall x
        ensures x in v[1..] <==> x in w[1..]
      {
        if x in v[1..] { assert x in v && x != v[0]; }
        if x in w[1..] { assert x in w && x != w[0]; }
      }
      SortedUnique(v[1..], w[1..]);
    }
  }

  // ---------- Randomness ----------

  function Concat(parts: seq<Bytes>): Bytes {
    if parts == [] then [] else parts[0] + Concat(parts[1..])
  }

  /** The seeds among a list of validator transactions, in order. */
  function Seeds(txs: seq<TxValidator>): seq<Bytes> {
    if txs == [] then []
    else if FunctionOf(txs[0]).RandomSeed? then [Payload(txs[0])] + Seeds(txs[1..])
    else Seeds(txs[1..])
  }

  lemma {:induction false} SeedsAppend(txs: seq<TxValidator>, more: seq<TxValidator>)
    ensures Seeds(txs + more) == Seeds(txs) + Seeds(more)
  {
    if txs == [] {
      assert txs + more == more;
    } else {
      SeedsAppend(txs[1..], more);
      assert (txs + more)[1..] == txs[1..] + more;
    }
  }

  lemma {:induction false} ConcatAppend(parts: seq<Bytes>, more: seq<Bytes>)
    ensures Concat(parts + more) == Concat(parts) + Concat(more)
  {
    if parts == [] {
      assert parts + more == more;
    } else {
      ConcatAppend(parts[1..], more);
      assert (parts + more)[1..] == parts[1..] + more;
      assert Concat(parts + more) == parts[0] + (Concat(parts[1..]) + Concat(more));
    }
  }

  /** The randomness that a block with these validator transactions must carry. */
  function Randomness(sha3: Bytes -> Bytes, txs: seq<TxValidator>): Bytes {
    if txs == [] then ZERO_HASH else sha3(Concat(Seeds(txs)))
  }

  /** A validator transaction that reveals a seed: four bytes of functor and 32 of seed. */
  predicate IsSeed(tx: TxValidator) {
    |tx.data| == 36 && BigEndian.Decode(tx.data[..4]) == 1_875_223_254
  }

  /** `s` is the seeds of the transactions at positions `at` in a row, 32 bytes each. */
  predicate InRow(txs: seq<TxValidator>, at: seq<nat>, s: Bytes) {
    && |s| == 32 * |at|
    && forall i :: 0 <= i < |at| ==>
         at[i] < |txs| && |txs[at[i]].data| == 36 && s[32 * i..32 * i + 32] == txs[at[i]].data[4..]
  }

  predicate Increasing(at: seq<nat>) {
    forall i, j :: 0 <= i < j < |at| ==> at[i] < at[j]
  }

  /** The positions of all seeds, in order. */
  predicate SeedsAt(txs: seq<TxValidator>, at: seq<nat>) {
    && Increasing(at)
    && (forall k :: k in at ==> k < |txs|)
    && (forall k :: 0 <= k < |txs| ==> (k in at <==> IsSeed(txs[k])))
  }

  lemma InRowAppend(txs: seq<TxValidator>, at: seq<nat>, s: Bytes, tx: TxValidator)
    requires InRow(txs, at, s)
    ensures InRow(txs + [tx], at, s)
    ensures |tx.data| == 36 ==> InRow(txs + [tx], at + [|txs|], s + tx.data[4..])
  {
    if |tx.data| == 36 {
      var more, longer := at + [|txs|], s + tx.data[4..];
      forall i | 0 <= i < |more|
        ensures longer[32 * i..32 * i + 32] == (txs + [tx])[more[i]].data[4..]
      {
        if i < |at| {
          assert longer[32 * i..32 * i + 32] == s[32 * i..32 * i + 32];
        }
      }
    }
  }

  lemma IncreasingAppend(at: seq<nat>, n: nat)
    requires Increasing(at) && forall k :: k in at ==> k < n
    ensures Increasing(at + [n])
  {
    forall i | 0 <= i < |at|
      ensures at[i] < n
    {
      assert at[i] in at;
    }
  }

  lemma SeedsAtAppend(txs: seq<TxValidator>, at: seq<nat>, tx: TxValidator)
    requires SeedsAt(txs, at)
    ensures SeedsAt(txs + [tx], if IsSeed(tx) then at + [|txs|] else at)
  {
    IncreasingAppend(at, |txs|);
    var n, more := |txs|, if IsSeed(tx) then at + [|txs|] else at;
    forall k
      ensures k in more <==> k in at || (IsSeed(tx) && k == n)
    {
    }
    forall k | 0 <= k < n + 1
      ensures k in more <==> IsSeed((txs + [tx])[k])
    {
      if k < n {
        assert (txs + [tx])[k] == txs[k];
      }
    }
  }

  /** What is hashed is the 32-byte seeds of the transactions, in their order, and nothing else. */
  lemma {:induction false} SeedsInRow(txs: seq<TxValidator>) returns (at: seq<nat>)
    ensures SeedsAt(txs, at) && InRow(txs, at, Concat(Seeds(txs)))
  {
    if txs == [] {
      at := [];
    } else {
      var front, tx := txs[..|txs| - 1], txs[|txs| - 1];
      assert txs == front + [tx];
      at := SeedsInRow(front);
      SeedsAppend(front, [tx]);
      ConcatAppend(Seeds(front), Seeds([tx]));
      InRowAppend(front, at, Concat(Seeds(front)), tx);
      SeedsAtAppend(front, at, tx);
      OneSeed(tx);
      if IsSeed(tx) {
        at := at + [|front|];
      } else {
        assert Concat(Seeds(front)) + [] == Concat(Seeds(front));
      }
    }
  }

  lemma OneSeed(tx: TxValidator)
    ensures Concat(Seeds([tx])) == if IsSeed(tx) then tx.data[4..] else []
  {
    if IsSeed(tx) {
      assert Seeds([tx]) == [tx.data[4..]];
      assert Concat([tx.data[4..]]) == tx.data[4..] + Concat([]);
    }
  }

  /** The bytes of parts of 32 bytes each. */
  lemma {:induction false} ConcatBytes(parts: seq<Bytes>, i: nat, j: nat)
    requires i < |parts| && j < 32 && forall k :: 0 <= k < |parts| ==> |parts[k]| == 32
    ensures |Concat(parts)| == 32 * |parts| && Concat(parts)[32 * i + j] == parts[i][j]
  {
    ConcatLength(parts);
    if i > 0 {
      ConcatBytes(parts[1..], i - 1, j);
    }
  }

  lemma {:induction false} ConcatLength(parts: seq<Bytes>)
    requires forall k :: 0 <= k < |parts| ==> |parts[k]| == 32
    ensures |Concat(parts)| == 32 * |parts|
  {
    if parts != [] {
      ConcatLength(parts[1..]);
    }
  }

  /** Hashes all seeds in a row; without transactions the hash is zero. */
  method ParseTxSeedList(sha3: Bytes -> Bytes, txs: seq<TxValidator>) returns (randomness: Bytes)
    ensures randomness == Randomness(sha3, txs)
    ensures txs == [] ==> |randomness| == 32 && forall i :: 0 <= i < 32 ==> randomness[i] == 0
    ensures txs != [] ==> exists at, s :: SeedsAt(txs, at) && InRow(txs, at, s) && randomness == sha3(s)
  {
    if txs == [] {
      return ZERO_HASH;
    }
    var seed: Bytes := [];
    for i := 0 to |txs|
      invariant seed == Concat(Seeds(txs[..i]))
    {
      assert txs[..i + 1] == txs[..i] + [txs[i]];
      SeedsAppend(txs[..i], [txs[i]]);
      ConcatAppend(Seeds(txs[..i]), Seeds([txs[i]]));
      if FunctionOf(txs[i]).RandomSeed? {
        seed := seed + Payload(txs[i]);
      }
    }
    assert txs[..|txs|] == txs;
    randomness := sha3(seed);
    ghost var at := SeedsInRow(txs);
  }

  // ---------- What a block must contain ----------

  /** A commitment and the seed it commits to, of one validator. */
  predicate Matching(sha3: Bytes -> Bytes, hashTx: TxValidator, seedTx: TxValidator) {
    && FunctionOf(hashTx).RandomHash? && FunctionOf(seedTx).RandomSeed?
    && hashTx.from == seedTx.from
    && sha3(Payload(seedTx)) == Payload(hashTx)
  }

  method SanityCheck(sha3: Bytes -> Bytes, hashTx: TxValidator, seedTx: TxValidator) returns (ok: bool)
    ensures ok <==> Matching(sha3, hashTx, seedTx)
  {
    var hashFunction, seedFunction := FunctionOf(hashTx), FunctionOf(seedTx);
    if hashFunction.Invalid? || seedFunction.Invalid? {
      return false;
    }
    if hashTx.from != seedTx.from || !hashFunction.RandomHash? || !seedFunction.RandomSeed? {
      return false;
    }
    var hash, random := hashTx.data[4..], seedTx.data[4..];
    if |hash| != 32 || |random| != 32 {
      return false;
    }
    return sha3(random) == hash;
  }

  /** The two transactions in position `i` are of the validator scheduled there. */
  predicate Slot(randomList: seq<Address>, n: nat, txs: seq<TxValidator>, i: nat)
    requires i < n < |randomList| && |txs| == 2 * n
  {
    txs[i].from == txs[i + n].from == randomList[i + 1]
  }

  predicate DistinctHashes(txs: seq<TxValidator>, n: nat)
    requires n <= |txs|
  {
    forall i, j :: 0 <= i < j < n ==> txs[i].hash != txs[j].hash
  }

  /** Two transactions of each of the first validators after the leader, in schedule order: first
      all commitments, then all seeds. */
  predicate WellOrdered(sha3: Bytes -> Bytes, randomList: seq<Address>, n: nat, height: nat, txs: seq<TxValidator>)
    requires n < |randomList|
  {
    |txs| == 2 * n && AllFor(height, txs) && AllSlots(randomList, n, txs) && AllOpened(sha3, n, txs) && DistinctHashes(txs, n)
  }

  /** A commitment and its opening by one validator, for one height, told by their bytes. */
  predicate Opening(sha3: Bytes -> Bytes, validator: Address, height: nat, hashTx: TxValidator, seedTx: TxValidator) {
    && hashTx.from == seedTx.from == validator && hashTx.height == seedTx.height == height
    && |hashTx.data| == |seedTx.data| == 36
    && BigEndian.Decode(hashTx.data[..4]) == 3_489_654_598 && BigEndian.Decode(seedTx.data[..4]) == 1_875_223_254
    && sha3(seedTx.data[4..]) == hashTx.data[4..]
  }

  /** The same by positions: for each validator after the leader a commitment and, `n` places later, its opening. */
  lemma WellOrderedIff(sha3: Bytes -> Bytes, randomList: seq<Address>, n: nat, height: nat, txs: seq<TxValidator>)
    requires n < |randomList|
    ensures WellOrdered(sha3, randomList, n, height, txs) <==>
      && |txs| == 2 * n && DistinctHashes(txs, n)
      && (forall i :: 0 <= i < n ==> Opening(sha3, randomList[i + 1], height, txs[i], txs[i + n]))
  {
    if |txs| == 2 * n {
      forall i | 0 <= i < n
        ensures Opening(sha3, randomList[i + 1], height, txs[i], txs[i + n]) <==>
          && Slot(randomList, n, txs, i) && Opened(sha3, n, txs, i)
          && txs[i].height == height && txs[i + n].height == height
      {
      }
      if forall i :: 0 <= i < n ==> Opening(sha3, randomList[i + 1], height, txs[i], txs[i + n]) {
        forall i | 0 <= i < 2 * n
          ensures txs[i].height == height
        {
          var k := if i < n then i else i - n;
          assert Opening(sha3, randomList[k + 1], height, txs[k], txs[k + n]);
        }
      }
    }
  }

  predicate AllFor(height: nat, txs: seq<TxValidator>) {
    forall i :: 0 <= i < |txs| ==> txs[i].height == height
  }

  predicate AllSlots(randomList: seq<Address>, n: nat, txs: seq<TxValidator>)
    requires n < |randomList| && |txs| == 2 * n
  {
    forall i :: 0 <= i < n ==> Slot(randomList, n, txs, i)
  }

  /** The second transaction in a slot reveals what the first committed to. */
  predicate Opened(sha3: Bytes -> Bytes, n: nat, txs: seq<TxValidator>, i: nat)
    requires i < n && |txs| == 2 * n
  {
    Matching(sha3, txs[i], txs[i + n])
  }

  predicate AllOpened(sha3: Bytes -> Bytes, n: nat, txs: seq<TxValidator>)
    requires |txs| == 2 * n
  {
    forall i :: 0 <= i < n ==> Opened(sha3, n, txs, i)
  }

  /** Seed `i` of a block is the 32-byte preimage of what the validator scheduled there committed to. */
  predicate Revealed(sha3: Bytes -> Bytes, randomList: seq<Address>, n: nat, txs: seq<TxValidator>, i: nat)
    requires i < n < |randomList| && |txs| == 2 * n
  {
    && i < |Seeds(txs)|
    && |Seeds(txs)[i]| == 32
    && Seeds(txs)[i] == Payload(txs[i + n])
    && sha3(Seeds(txs)[i]) == Payload(txs[i])
    && txs[i].from == txs[i + n].from == randomList[i + 1]
  }

  predicate SeedOf(tx: TxValidator, part: Bytes) {
    |tx.data| == 36 && part == tx.data[4..]
  }

  /** `s` is the openings of a block in a row: 32 bytes of each transaction of the second half. */
  predicate OpeningsInRow(txs: seq<TxValidator>, n: nat, s: Bytes) {
    && |txs| == 2 * n && |s| == 32 * n
    && forall i :: 0 <= i < n ==> SeedOf(txs[i + n], s[32 * i..32 * i + 32])
  }

  lemma OpeningsConcat(txs: seq<TxValidator>, n: nat)
    requires |txs| == 2 * n && |Seeds(txs)| == n
    requires forall i :: 0 <= i < n ==> SeedOf(txs[i + n], Seeds(txs)[i])
    ensures OpeningsInRow(txs, n, Concat(Seeds(txs)))
  {
    var s, seeds := Concat(Seeds(txs)), Seeds(txs);
    forall i | 0 <= i < n
      ensures |seeds[i]| == 32
    {
      assert SeedOf(txs[i + n], seeds[i]);
    }
    ConcatLength(seeds);
    forall i | 0 <= i < n
      ensures SeedOf(txs[i + n], s[32 * i..32 * i + 32])
    {
      forall j | 0 <= j < 32
        ensures s[32 * i + j] == seeds[i][j]
      {
        ConcatBytes(seeds, i, j);
      }
      assert s[32 * i..32 * i + 32] == seeds[i];
    }
  }

  /** The randomness of an accepted block hashes exactly the revealed seeds, in schedule order. */
  lemma RandomnessOfAccepted(sha3: Bytes -> Bytes, randomList: seq<Address>, n: nat, height: nat, txs: seq<TxValidator>)
    requires n < |randomList| && WellOrdered(sha3, randomList, n, height, txs)
    ensures n > 0 ==> exists s :: OpeningsInRow(txs, n, s) && Randomness(sha3, txs) == sha3(s)
    ensures |Seeds(txs)| == n && OpeningsInRow(txs, n, Concat(Seeds(txs)))
    ensures forall i :: 0 <= i < n ==> Revealed(sha3, randomList, n, txs, i)
  {
    SeedsOfWellOrdered(sha3, randomList, n, height, txs);
    forall i | 0 <= i < n
      ensures Revealed(sha3, randomList, n, txs, i) && SeedOf(txs[i + n], Seeds(txs)[i])
    {
      assert Slot(randomList, n, txs, i) && Opened(sha3, n, txs, i);
    }
    OpeningsConcat(txs, n);
  }

  /** The seeds are the payloads of the second half. */
  lemma SeedsOfWellOrdered(sha3: Bytes -> Bytes, randomList: seq<Address>, n: nat, height: nat, txs: seq<TxValidator>)
    requires n < |randomList| && WellOrdered(sha3, randomList, n, height, txs)
    ensures |Seeds(txs)| == n && forall i :: 0 <= i < n ==> Seeds(txs)[i] == Payload(txs[i + n])
  {
    Halves(sha3, n, txs);
    SeedsOfHalves(txs[..n], txs[n..], txs, n);
  }

  /** Commitments come first and seeds second. */
  lemma Halves(sha3: Bytes -> Bytes, n: nat, txs: seq<TxValidator>)
    requires |txs| == 2 * n && AllOpened(sha3, n, txs)
    ensures AllOf(RandomHash, txs[..n]) && AllOf(RandomSeed, txs[n..])
  {
    forall i | 0 <= i < n
      ensures FunctionOf(txs[..n][i]).RandomHash?
    {
      assert Opened(sha3, n, txs, i);
    }
    forall i | 0 <= i < n
      ensures FunctionOf(txs[n..][i]).RandomSeed?
    {
      assert Opened(sha3, n, txs, i);
    }
  }

  predicate AllOf(f: TxValidatorFunction, txs: seq<TxValidator>) {
    forall i :: 0 <= i < |txs| ==> FunctionOf(txs[i]) == f
  }

  lemma SeedsOfHalves(first: seq<TxValidator>, second: seq<TxValidator>, txs: seq<TxValidator>, n: nat)
    requires |first| == |second| == n && txs == first + second && AllOf(RandomHash, first) && AllOf(RandomSeed, second)
    ensures |Seeds(txs)| == n && forall i :: 0 <= i < n ==> Seeds(txs)[i] == Payload(txs[i + n])
  {
    SeedsAppend(first, second);
    NoSeeds(first);
    AllSeeds(second);
    assert [] + Seeds(second) == Seeds(second);
    assert forall i :: 0 <= i < n ==> second[i] == txs[i + n];
  }

  lemma {:induction false} NoSeeds(txs: seq<TxValidator>)
    requires forall i :: 0 <= i < |txs| ==> FunctionOf(txs[i]).RandomHash?
    ensures Seeds(txs) == []
  {
    if txs != [] {
      NoSeeds(txs[1..]);
    }
  }

  lemma {:induction false} AllSeeds(txs: seq<TxValidator>)
    requires forall i :: 0 <= i < |txs| ==> FunctionOf(txs[i]).RandomSeed?
    ensures |Seeds(txs)| == |txs| && forall i :: 0 <= i < |txs| ==> Seeds(txs)[i] == Payload(txs[i])
  {
    if txs != [] {
      AllSeeds(txs[1..]);
      assert forall i :: 0 < i < |txs| ==> txs[i] == txs[1..][i - 1];
    }
  }

  type PairMap = map<Hash, (TxValidator, TxValidator)>

  /** Commitments paired with seeds, by the commitment's hash. Transactions are equal when their
      hashes are, and inserting an equal key keeps the first pair. */
  function PairUp(txs: seq<TxValidator>, n: nat, i: nat): PairMap
    requires i <= n && |txs| == 2 * n
  {
    if i == 0 then map[]
    else
      var pairs := PairUp(txs, n, i - 1);
      if txs[i - 1].hash in pairs then pairs else pairs[txs[i - 1].hash := (txs[i - 1], txs[i - 1 + n])]
  }

  ghost predicate HasHash(txs: seq<TxValidator>, i: nat, h: Hash)
    requires i <= |txs|
  {
    exists j :: 0 <= j < i && txs[j].hash == h
  }

  lemma {:induction false} PairUpKeys(txs: seq<TxValidator>, n: nat, i: nat, h: Hash)
    requires i <= n && |txs| == 2 * n
    ensures h in PairUp(txs, n, i) <==> HasHash(txs, i, h)
  {
    if i > 0 {
      PairUpKeys(txs, n, i - 1, h);
      assert HasHash(txs, i, h) <==> HasHash(txs, i - 1, h) || txs[i - 1].hash == h;
    }
  }

  /** Nothing is lost exactly when all commitments have different hashes. */
  lemma {:induction false} PairUpSize(txs: seq<TxValidator>, n: nat, i: nat)
    requires i <= n && |txs| == 2 * n
    ensures |PairUp(txs, n, i)| <= i
    ensures |PairUp(txs, n, i)| == i <==> DistinctHashes(txs, i)
  {
    if i > 0 {
      PairUpSize(txs, n, i - 1);
      PairUpKeys(txs, n, i - 1, txs[i - 1].hash);
      assert DistinctHashes(txs, i) <==> DistinctHashes(txs, i - 1) && !HasHash(txs, i - 1, txs[i - 1].hash);
    }
  }

  lemma {:induction false} PairUpHolds(txs: seq<TxValidator>, n: nat, i: nat, j: nat)
    requires j < i <= n && |txs| == 2 * n && DistinctHashes(txs, i)
    ensures txs[j].hash in PairUp(txs, n, i) && PairUp(txs, n, i)[txs[j].hash] == (txs[j], txs[j + n])
  {
    if j == i - 1 {
      PairUpKeys(txs, n, i - 1, txs[j].hash);
    } else {
      PairUpHolds(txs, n, i - 1, j);
    }
  }

  /** Once all hashes differ, checking the collected pairs is checking the list. */
  lemma PairsCovered(sha3: Bytes -> Bytes, txs: seq<TxValidator>, n: nat)
    requires |txs| == 2 * n && DistinctHashes(txs, n)
    ensures AllMatching(sha3, PairUp(txs, n, n)) <==> AllOpened(sha3, n, txs)
  {
    var pairs := PairUp(txs, n, n);
    forall i | 0 <= i < n
      ensures txs[i].hash in pairs && pairs[txs[i].hash] == (txs[i], txs[i + n])
    {
      PairUpHolds(txs, n, n, i);
    }
    if AllMatching(sha3, pairs) {
      forall i | 0 <= i < n
        ensures Opened(sha3, n, txs, i)
      {
        assert pairs[txs[i].hash] == (txs[i], txs[i + n]);
      }
    }
    if AllOpened(sha3, n, txs) {
      forall h | h in pairs
        ensures Matching(sha3, pairs[h].0, pairs[h].1)
      {
        PairUpKeys(txs, n, n, h);
        var i :| 0 <= i < n && txs[i].hash == h;
        assert Opened(sha3, n, txs, i);
      }
    }
  }

  predicate AllMatching(sha3: Bytes -> Bytes, pairs: PairMap) {
    forall h :: h in pairs ==> Matching(sha3, pairs[h].0, pairs[h].1)
  }

  method CollectPairs(randomList: seq<Address>, n: nat, txs: seq<TxValidator>) returns (scheduled: bool, pairs: PairMap)
    requires n < |randomList| && |txs| == 2 * n
    ensures scheduled <==> AllSlots(randomList, n, txs)
    ensures scheduled ==> pairs == PairUp(txs, n, n)
  {
    pairs := map[];
    for i := 0 to n
      invariant forall j :: 0 <= j < i ==> Slot(randomList, n, txs, j)
      invariant pairs == PairUp(txs, n, i)
    {
      if txs[i].from != randomList[i + 1] || txs[i + n].from != randomList[i + 1] {
        assert !Slot(randomList, n, txs, i);
        return false, pairs;
      }
      if txs[i].hash !in pairs {
        pairs := pairs[txs[i].hash := (txs[i], txs[i + n])];
      }
    }
    scheduled := true;
  }

  class Consensus {
    const sha3: Bytes -> Bytes
    const validators: seq<Address>  // an ordered set
    const minValidators: nat
    var randomList: seq<Address>
    var bestRandomSeed: Bytes
    var mempool: Pool
    var latestHeight: nat

    ghost function Participants(): set<Address>
      reads this
      requires minValidators < |randomList|
    {
      set i | 1 <= i <= minValidators :: randomList[i]
    }

    /** Holds after every operation of every run. */
    ghost predicate Inv()
      reads this
    {
      && StrictlySorted(validators) && minValidators < |validators|
      && randomList == Shuffled(sha3, validators, bestRandomSeed)
      && Regular(mempool, Participants(), latestHeight + 1)
    }

    /** Built at startup from stored validators, in any order, and the latest block. */
    constructor (sha3: Bytes -> Bytes, stored: seq<Address>, minValidators: nat, latestHeight: nat, latestRandomness: Bytes)
      ensures minValidators < |validators| ==> Inv()
      ensures mempool == map[] && randomList == Shuffled(sha3, validators, latestRandomness)
      ensures this.sha3 == sha3 && this.minValidators == minValidators && this.latestHeight == latestHeight
      ensures validators == InsertAll([], stored) && bestRandomSeed == latestRandomness
    {
      this.sha3, this.minValidators, this.latestHeight := sha3, minValidators, latestHeight;
      validators := InsertAll([], stored);
      bestRandomSeed := latestRandomness;
      mempool := map[];
      randomList := Shuffled(sha3, InsertAll([], stored), latestRandomness);
      new;
      InsertAllSorts([], stored);
      Reshuffle(latestRandomness);
    }

    method Reshuffle(seed: Bytes)
      modifies this`randomList, this`bestRandomSeed
      ensures randomList == Shuffled(sha3, validators, seed) && bestRandomSeed == seed
    {
      bestRandomSeed := seed;
      var list := new Address[|validators|](i requires 0 <= i < |validators| => validators[i]);
      assert list[..] == validators;
      var _ := Shuffle(sha3, list, seed);
      randomList := list[..];
    }

    /** The schedule lists every validator once. */
    lemma SchedulePermutes()
      requires Inv()
      ensures multiset(randomList) == multiset(validators)
      ensures forall i, j :: 0 <= i < j < |randomList| ==> randomList[i] != randomList[j]
    {
      ShufflePermutes(sha3, validators, 0, bestRandomSeed);
      forall i, j | 0 <= i < j < |randomList|
        ensures randomList[i] != randomList[j]
      {
        if randomList[i] == randomList[j] {
          TwiceCounts(randomList, i, j);
          OnceCounts(validators, randomList[i]);
          assert false;
        }
      }
    }

    /** The leader is the validator that the hash of the latest randomness points at. */
    lemma LeaderIsDrawn()
      requires Inv()
      ensures randomList[0] == validators[BigEndian.Decode(sha3(bestRandomSeed)) % |validators|]
    {
      FirstOfShuffle(sha3, validators, bestRandomSeed);
    }

    /** Clears the round and decides the next one; the height moves in the same step. */
    method ProcessBlock(block: Block)
      requires Inv()
      modifies this
      ensures Inv() && mempool == map[] && bestRandomSeed == block.randomness && latestHeight == block.height
      ensures randomList[0] == validators[BigEndian.Decode(sha3(block.randomness)) % |validators|]
    {
      mempool := map[];
      Reshuffle(block.randomness);
      latestHeight := block.height;
      LeaderIsDrawn();
    }

    /** What is written when the state is dumped. */
    function Dump(): seq<Address>
      reads this
    {
      validators
    }

    method AddValidatorTx(tx: TxValidator) returns (status: TxStatus)
      requires Inv()
      modifies this`mempool
      ensures Inv()
      ensures mempool == if status.ValidNew? then old(mempool)[tx.hash := tx] else old(mempool)
      ensures status.ValidExisting? <==> tx.hash in old(mempool)
      ensures status.ValidNew? <==>
        && tx.hash !in old(mempool) && tx.height == latestHeight + 1 && tx.from in Participants()
        && |Entries(old(mempool), tx.from)| <= 1
        && (forall h :: h in Entries(old(mempool), tx.from) ==> Functor(old(mempool)[h]) != Functor(tx))
    {
      if tx.hash in mempool {
        return ValidExisting;
      }
      if tx.height != latestHeight + 1 {
        return InvalidUnexpected;
      }
      var participates := Participates(tx.from);
      if !participates {
        return InvalidUnexpected;
      }
      var redundant := IsRedundant(tx);
      if redundant {
        return InvalidRedundant;
      }
      AddKeepsRegular(tx);
      mempool := mempool[tx.hash := tx];
      return ValidNew;
    }

    /** A sender may have one other transaction, for the other function. */
    method IsRedundant(tx: TxValidator) returns (redundant: bool)
      ensures !redundant <==>
        && |Entries(mempool, tx.from)| <= 1
        && (forall h :: h in Entries(mempool, tx.from) ==> Functor(mempool[h]) != Functor(tx))
    {
      var txs := FromSender(mempool, tx.from);
      if |txs| == 0 {
        return false;
      }
      if |txs| == 1 {
        assert forall h :: h in Entries(mempool, tx.from) ==> h == txs[0];
        assert txs[0] in Entries(mempool, tx.from);
        return Functor(mempool[txs[0]]) == Functor(tx);
      }
      return true;
    }

    method Participates(a: Address) returns (b: bool)
      requires Inv()
      ensures b <==> a in Participants()
    {
      for i := 1 to minValidators + 1
        invariant forall j :: 1 <= j < i ==> randomList[j] != a
      {
        if randomList[i] == a {
          return true;
        }
      }
      return false;
    }

    lemma AddKeepsRegular(tx: TxValidator)
      requires Inv() && tx.hash !in mempool && tx.height == latestHeight + 1 && tx.from in Participants()
      requires |Entries(mempool, tx.from)| <= 1
      requires forall h :: h in Entries(mempool, tx.from) ==> Functor(mempool[h]) != Functor(tx)
      ensures Regular(mempool[tx.hash := tx], Participants(), latestHeight + 1)
    {
      var pool := mempool[tx.hash := tx];
      forall a | a in Participants()
        ensures |Entries(pool, a)| <= 2
      {
        if a == tx.from {
          assert Entries(pool, a) == Entries(mempool, a) + {tx.hash};
        } else {
          assert Entries(pool, a) == Entries(mempool, a);
        }
      }
    }

    /** A round never holds more than two transactions for each participant. */
    lemma MempoolBound()
      requires Inv()
      ensures |mempool| <= 2 * minValidators
    {
      ParticipantCount();
      PoolBound(mempool, Participants());
    }

    lemma ParticipantCount()
      requires Inv()
      ensures |Participants()| == minValidators
    {
      SchedulePermutes();
      CountDistinct(randomList, minValidators);
    }

    method ValidateBlock(block: Block) returns (valid: bool)
      requires Inv()
      ensures valid <==> (
        && block.leader == randomList[0]
        && WellOrdered(sha3, randomList, minValidators, block.height, block.txValidators))
    {
      var txs := block.txValidators;
      if block.leader != randomList[0] || |txs| != minValidators * 2 {
        return false;
      }
      for i := 0 to |txs|
        invariant forall j :: 0 <= j < i ==> txs[j].height == block.height
      {
        if txs[i].height != block.height {
          return false;
        }
      }
      var scheduled, pairs := CollectPairs(randomList, minValidators, txs);
      if !scheduled {
        return false;
      }
      PairUpSize(txs, minValidators, minValidators);
      if |pairs| != minValidators {
        return false;
      }
      valid := CheckPairs(pairs);
      PairsCovered(sha3, txs, minValidators);
    }

    method CheckPairs(pairs: PairMap) returns (valid: bool)
      ensures valid <==> AllMatching(sha3, pairs)
    {
      var rest := pairs.Keys;
      while rest != {}
        invariant rest <= pairs.Keys
        invariant forall h :: h in pairs && h !in rest ==> Matching(sha3, pairs[h].0, pairs[h].1)
      {
        var h :| h in rest;
        rest := rest - {h};
        var ok := SanityCheck(sha3, pairs[h].0, pairs[h].1);
        if !ok {
          return false;
        }
      }
      return true;
    }
  }

  /** The list names every member of the set once. */
  ghost predicate Listed(hashes: seq<Hash>, s: set<Hash>) {
    |hashes| == |s| && forall h :: h in hashes <==> h in s
  }

  lemma ListMore(hashes: seq<Hash>, s: set<Hash>, h: Hash)
    requires Listed(hashes, s) && h !in s
    ensures Listed(hashes + [h], s + {h})
  {
  }

  lemma SeenMore(pool: Pool, from: Address, seen: set<Hash>, h: Hash)
    requires h in pool
    ensures Entries(pool, from) * (seen + {h})
         == if pool[h].from == from then Entries(pool, from) * seen + {h} else Entries(pool, from) * seen
  {
  }

  /** The hashes of a sender's pooled transactions, found by scanning the pool. */
  method FromSender(pool: Pool, from: Address) returns (hashes: seq<Hash>)
    ensures Listed(hashes, Entries(pool, from))
  {
    hashes := [];
    var rest := pool.Keys;
    ghost var seen := {};
    while rest != {}
      invariant seen + rest == pool.Keys && seen !! rest
      invariant Listed(hashes, Entries(pool, from) * seen)
    {
      var h :| h in rest;
      SeenMore(pool, from, seen, h);
      if pool[h].from == from {
        ListMore(hashes, Entries(pool, from) * seen, h);
        hashes := hashes + [h];
      }
      rest, seen := rest - {h}, seen + {h};
    }
    assert Entries(pool, from) * seen == Entries(pool, from);
  }

  lemma TwiceCounts<T>(v: seq<T>, i: nat, j: nat)
    requires i < j < |v| && v[i] == v[j]
    ensures multiset(v)[v[i]] >= 2
  {
    assert v == v[..j] + [v[j]] + v[j + 1..];
    assert v[..j] == v[..i] + [v[i]] + v[i + 1..j];
  }

  lemma {:induction false} OnceCounts(v: seq<Address>, a: Address)
    requires StrictlySorted(v)
    ensures multiset(v)[a] <= 1
  {
    if v != [] {
      OnceCounts(v[1..], a);
      assert v == [v[0]] + v[1..];
      if a == v[0] {
        assert a !in v[1..];
      }
    }
  }

  lemma {:induction false} CountDistinct(v: seq<Address>, n: nat)
    requires n < |v| && forall i, j :: 0 <= i < j < |v| ==> v[i] != v[j]
    ensures |(set i | 1 <= i <= n :: v[i])| == n
  {
    if n > 0 {
      CountDistinct(v, n - 1);
      var fewer := set i | 1 <= i <= n - 1 :: v[i];
      assert (set i | 1 <= i <= n :: v[i]) == fewer + {v[n]};
    }
  }
}
