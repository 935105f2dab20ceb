/** Validator transactions and how many of them a round can hold. */
module ValidatorPool {
  import opened Base
  import BigEndian

  datatype TxValidator = TxValidator(hash: Hash, from: Address, height: nat, data: Bytes)

  datatype TxValidatorFunction = Invalid | RandomHash | RandomSeed

  const RANDOM_HASH_FUNCTOR: nat := 3489654598
  const RANDOM_SEED_FUNCTOR: nat := 1875223254

  function Functor(tx: TxValidator): nat {
    if |tx.data| < 4 then 0 else BigEndian.Decode(tx.data[..4])
  }

  function FunctionOf(tx: TxValidator): TxValidatorFunction {
    if |tx.data| != 36 then Invalid
    else if Functor(tx) == RANDOM_HASH_FUNCTOR then RandomHash
    else if Functor(tx) == RANDOM_SEED_FUNCTOR then RandomSeed
    else Invalid
  }

  /** The 32 bytes after the functor: a seed, or the hash that commits to one. */
  function Payload(tx: TxValidator): Bytes {
    if |tx.data| < 4 then [] else tx.data[4..]
  }

  type Pool = map<Hash, TxValidator>

  function Entries(pool: Pool, from: Address): set<Hash> {
    set h | h in pool && pool[h].from == from
  }

  /** What a round's pool keeps: entries of participants only, under their own hash, for one
      height, at most two per sender and then for two different functions. */
  ghost predicate Regular(pool: Pool, participants: set<Address>, height: nat) {
    && (forall h :: h in pool ==> pool[h].hash == h && pool[h].height == height && pool[h].from in participants)
    && (forall a :: a in participants ==> |Entries(pool, a)| <= 2)
    && (forall g, h :: g in pool && h in pool && g != h && pool[g].from == pool[h].from ==>
          Functor(pool[g]) != Functor(pool[h]))
  }

  function Without(pool: Pool, from: Address): Pool {
    map h | h in pool && pool[h].from != from :: pool[h]
  }

  lemma WithoutSplits(pool: Pool, from: Address)
    ensures |pool| == |Without(pool, from)| + |Entries(pool, from)|
    ensures forall a :: a != from ==> Entries(Without(pool, from), a) == Entries(pool, a)
  {
    assert pool.Keys == Without(pool, from).Keys + Entries(pool, from);
    assert Without(pool, from).Keys !! Entries(pool, from);
    assert |pool.Keys| == |Without(pool, from).Keys| + |Entries(pool, from)|;
  }

  /** Two entries for each participant is all that fits. */
  lemma {:induction false} PoolBound(pool: Pool, participants: set<Address>)
    requires forall h :: h in pool ==> pool[h].from in participants
    requires forall a :: a in participants ==> |Entries(pool, a)| <= 2
    ensures |pool| <= 2 * |participants|
    decreases participants
  {
    if participants == {} {
      assert pool == map[] by {
        assert forall h :: h !in pool;
      }
    } else {
      var a :| a in participants;
      WithoutSplits(pool, a);
      PoolBound(Without(pool, a), participants - {a});
    }
  }

  /** By pigeonhole, a pool that is full has two entries of every participant. */
  lemma FullPool(pool: Pool, participants: set<Address>, height: nat, a: Address)
    requires Regular(pool, participants, height) && |pool| == 2 * |participants| && a in participants
    ensures |Entries(pool, a)| == 2
  {
    WithoutSplits(pool, a);
    PoolBound(Without(pool, a), participants - {a});
  }

  /** In a full pool of recognised transactions every participant has one of each function. */
  lemma OneOfEach(pool: Pool, participants: set<Address>, height: nat, a: Address, f: TxValidatorFunction)
    returns (h: Hash)
    requires Regular(pool, participants, height) && |pool| == 2 * |participants| && a in participants
    requires forall h :: h in pool ==> FunctionOf(pool[h]) != Invalid
    requires f != Invalid
    ensures h in pool && pool[h].from == a && FunctionOf(pool[h]) == f
  {
    FullPool(pool, participants, height, a);
    var s := Entries(pool, a);
    var g :| g in s;
    assert |s - {g}| == 1;
    var g' :| g' in s - {g};
    h := if FunctionOf(pool[g]) == f then g else g';
  }
}
