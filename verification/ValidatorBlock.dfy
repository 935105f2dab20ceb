/** The block producer's side of a round: ordering the pooled validator transactions into a block. */
module ValidatorBlock {
  import opened Base
  import opened ValidatorPool
  import opened RdPoS

  predicate Fits(tx: TxValidator, from: Address, functor: nat) {
    tx.from == from && Functor(tx) == functor
  }

  ghost predicate Offered(entries: seq<TxValidator>, from: Address, functor: nat) {
    exists e :: e in entries && Fits(e, from, functor)
  }

  /** One pass over the pool, stopping at the first transaction that fits. */
  method Find(entries: seq<TxValidator>, from: Address, functor: nat) returns (found: bool, tx: TxValidator)
    ensures found <==> Offered(entries, from, functor)
    ensures found ==> tx in entries && Fits(tx, from, functor)
  {
    for i := 0 to |entries|
      invariant forall j :: 0 <= j < i ==> !Fits(entries[j], from, functor)
    {
      if Fits(entries[i], from, functor) {
        return true, entries[i];
      }
    }
    found, tx := false, TxValidator(0, 0, 0, []);
  }

  /** Each of the first `n` validators behind the leader has a fitting entry. */
  ghost predicate OfferedAll(entries: seq<TxValidator>, randomList: seq<Address>, n: nat, functor: nat)
    requires n < |randomList|
  {
    forall i :: 1 <= i <= n ==> Offered(entries, randomList[i], functor)
  }

  /** Scans the pool again and again for the next scheduled validator; it ends because each has a
      transaction with the functor. */
  method Order(entries: seq<TxValidator>, randomList: seq<Address>, n: nat, functor: nat) returns (txs: seq<TxValidator>)
    requires n < |randomList|
    requires OfferedAll(entries, randomList, n, functor)
    ensures Chosen(txs, entries, randomList, n, functor)
  {
    txs := [];
    var i := 1;
    while |txs| != n
      invariant i == |txs| + 1 <= n + 1
      invariant forall j :: 0 <= j < |txs| ==> txs[j] in entries && Fits(txs[j], randomList[j + 1], functor)
      decreases n - |txs|
    {
      var found, tx := Find(entries, randomList[i], functor);
      if found {
        txs := txs + [tx];
        i := i + 1;
      }
    }
  }

  /** The pool is full, holds only the two recognised functions, and every seed opens its commitment. */
  ghost predicate Complete(c: Consensus)
    requires c.Inv()
    reads c
  {
    && |c.mempool| == 2 * c.minValidators
    && (forall h :: h in c.mempool ==> FunctionOf(c.mempool[h]) != Invalid)
    && (forall g, h :: g in c.mempool && h in c.mempool && Opposite(c.mempool[g], c.mempool[h]) ==>
          Matching(c.sha3, c.mempool[g], c.mempool[h]))
  }

  predicate Opposite(hashTx: TxValidator, seedTx: TxValidator) {
    hashTx.from == seedTx.from && FunctionOf(hashTx).RandomHash? && FunctionOf(seedTx).RandomSeed?
  }

  predicate Lists(entries: seq<TxValidator>, pool: Pool) {
    && (forall e :: e in entries ==> Pooled(pool, e))
    && (forall h :: h in pool ==> pool[h] in entries)
  }

  lemma Available(c: Consensus, entries: seq<TxValidator>, i: nat, f: TxValidatorFunction)
    requires c.Inv() && Complete(c) && Lists(entries, c.mempool) && 1 <= i <= c.minValidators && f != Invalid
    ensures Offered(entries, c.randomList[i], if f.RandomHash? then RANDOM_HASH_FUNCTOR else RANDOM_SEED_FUNCTOR)
  {
    c.ParticipantCount();
    assert c.randomList[i] in c.Participants();
    var h := OneOfEach(c.mempool, c.Participants(), c.latestHeight + 1, c.randomList[i], f);
    assert c.mempool[h] in entries;
  }

  lemma AllOffered(c: Consensus, entries: seq<TxValidator>)
    requires c.Inv() && Complete(c) && Lists(entries, c.mempool)
    ensures OfferedAll(entries, c.randomList, c.minValidators, RANDOM_HASH_FUNCTOR)
    ensures OfferedAll(entries, c.randomList, c.minValidators, RANDOM_SEED_FUNCTOR)
  {
    forall i | 1 <= i <= c.minValidators
      ensures Offered(entries, c.randomList[i], RANDOM_HASH_FUNCTOR)
      ensures Offered(entries, c.randomList[i], RANDOM_SEED_FUNCTOR)
    {
      Available(c, entries, i, RandomHash);
      Available(c, entries, i, RandomSeed);
    }
  }

  /** A full pool always yields validator transactions that the block validation accepts. */
  method BuildValidatorTxs(c: Consensus, entries: seq<TxValidator>) returns (txs: seq<TxValidator>)
    requires c.Inv() && Complete(c) && Lists(entries, c.mempool)
    ensures WellOrdered(c.sha3, c.randomList, c.minValidators, c.latestHeight + 1, txs)
  {
    AllOffered(c, entries);
    var hashTxs := Order(entries, c.randomList, c.minValidators, RANDOM_HASH_FUNCTOR);
    var seedTxs := Order(entries, c.randomList, c.minValidators, RANDOM_SEED_FUNCTOR);
    txs := hashTxs + seedTxs;
    ChosenIsWell(c, entries, hashTxs, seedTxs);
  }

  predicate Chosen(txs: seq<TxValidator>, entries: seq<TxValidator>, randomList: seq<Address>, n: nat, functor: nat)
    requires n < |randomList|
  {
    |txs| == n && forall i :: 0 <= i < n ==> txs[i] in entries && Fits(txs[i], randomList[i + 1], functor)
  }

  lemma ChosenIsWell(c: Consensus, entries: seq<TxValidator>, hashTxs: seq<TxValidator>, seedTxs: seq<TxValidator>)
    requires c.Inv() && Complete(c) && Lists(entries, c.mempool)
    requires Chosen(hashTxs, entries, c.randomList, c.minValidators, RANDOM_HASH_FUNCTOR)
    requires Chosen(seedTxs, entries, c.randomList, c.minValidators, RANDOM_SEED_FUNCTOR)
    ensures WellOrdered(c.sha3, c.randomList, c.minValidators, c.latestHeight + 1, hashTxs + seedTxs)
  {
    c.SchedulePermutes();
    OrderedIsWell(c.sha3, c.randomList, c.minValidators, c.latestHeight + 1, c.mempool, hashTxs, seedTxs);
  }

  predicate Pooled(pool: Pool, tx: TxValidator) {
    tx.hash in pool && pool[tx.hash] == tx
  }

  lemma OrderedIsWell(
    sha3: Bytes -> Bytes, randomList: seq<Address>, n: nat, height: nat, pool: Pool,
    hashTxs: seq<TxValidator>, seedTxs: seq<TxValidator>)
    requires n < |randomList| && |hashTxs| == |seedTxs| == n
    requires forall i, j :: 0 <= i < j < |randomList| ==> randomList[i] != randomList[j]
    requires forall h :: h in pool ==> pool[h].height == height && FunctionOf(pool[h]) != Invalid
    requires forall g, h :: g in pool && h in pool && Opposite(pool[g], pool[h]) ==> Matching(sha3, pool[g], pool[h])
    requires forall i :: 0 <= i < n ==> Pooled(pool, hashTxs[i]) && Fits(hashTxs[i], randomList[i + 1], RANDOM_HASH_FUNCTOR)
    requires forall i :: 0 <= i < n ==> Pooled(pool, seedTxs[i]) && Fits(seedTxs[i], randomList[i + 1], RANDOM_SEED_FUNCTOR)
    ensures WellOrdered(sha3, randomList, n, height, hashTxs + seedTxs)
  {
    var txs := hashTxs + seedTxs;
    forall i | 0 <= i < n
      ensures Slot(randomList, n, txs, i) && Opened(sha3, n, txs, i)
    {
      assert txs[i] == hashTxs[i] && txs[i + n] == seedTxs[i];
      assert Opposite(pool[hashTxs[i].hash], pool[seedTxs[i].hash]);
    }
    forall i, j | 0 <= i < j < n
      ensures txs[i].hash != txs[j].hash
    {
      assert Fits(hashTxs[i], randomList[i + 1], RANDOM_HASH_FUNCTOR) && Fits(hashTxs[j], randomList[j + 1], RANDOM_HASH_FUNCTOR);
    }
    forall i | 0 <= i < 2 * n
      ensures txs[i].height == height
    {
      assert Pooled(pool, if i < n then hashTxs[i] else seedTxs[i - n]);
    }
  }
}
