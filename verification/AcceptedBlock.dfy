/** From the bytes of a block to its acceptance: the views that consensus, state and store have of one
    block, and what its randomness is. */
module AcceptedBlock {
  import opened Base
  import opened ValidatorPool
  import opened Transactions
  import BigEndian
  import BlockCodec
  import NodeState
  import RdPoS

  type Block<T> = BlockCodec.Block<T, TxValidator>

  type Scheme<!T> = BlockCodec.Scheme<T, TxValidator>

  /** Who signed a header. */
  type Signer = (Bytes, Bytes) -> Address

  /** What the consensus sees of a block. */
  function ForConsensus<T>(b: Block<T>, signer: Signer): RdPoS.Block {
    RdPoS.Block(signer(b.signature, BlockCodec.Header(b)), b.height, b.randomness, b.validatorTxs)
  }

  /** What the state sees of a block; hashes are the numbers their bytes stand for. */
  function ForState<T>(b: Block<T>, hash: Bytes -> Bytes, read: T -> Tx): NodeState.Block {
    NodeState.Block(
      BigEndian.Decode(hash(BlockCodec.Header(b))), BigEndian.Decode(b.prevBlockHash), b.height, b.timestamp,
      seq(|b.txs|, i requires 0 <= i < |b.txs| => read(b.txs[i])))
  }

  /** The state's check of the predecessor is the store's. */
  lemma SamePredecessor<T>(a: Block<T>, b: Block<T>, hash: Bytes -> Bytes, read: T -> Tx)
    requires |hash(BlockCodec.Header(a))| == |b.prevBlockHash| == 32
    ensures ForState(b, hash, read).prevHash == ForState(a, hash, read).hash
       <==> b.prevBlockHash == hash(BlockCodec.Header(a))
  {
    BigEndian.EncodeDecode(b.prevBlockHash);
    BigEndian.EncodeDecode(hash(BlockCodec.Header(a)));
  }

  /** A block's randomness and the heights of its validator transactions are checked when it is read. */
  ghost predicate ChecksRandomness<T(!new)>(s: Scheme<T>, sha3: Bytes -> Bytes) {
    && (forall txs :: s.randomness(txs) == RdPoS.Randomness(sha3, txs))
    && (forall tx :: s.heightOf(tx) == tx.height)
  }

  /** The seeds of a block are those that the scheduled validators committed to, and it carries their hash. */
  ghost predicate CarriesSeeds<T>(c: RdPoS.Consensus, b: Block<T>)
    requires c.Inv()
    reads c
  {
    var seeds, n := RdPoS.Seeds(b.validatorTxs), c.minValidators;
    && |b.validatorTxs| == 2 * n && |seeds| == n
    && (n > 0 ==> exists s :: RdPoS.OpeningsInRow(b.validatorTxs, n, s) && b.randomness == c.sha3(s))
    && forall i :: 0 <= i < n ==> RdPoS.Revealed(c.sha3, c.randomList, n, b.validatorTxs, i)
  }

  /** For all bytes: a block that is read and that the consensus accepts carries the hash of exactly
      minValidators 32-byte seeds in schedule order, each opening its validator's commitment. */
  lemma AcceptedRandomness<T(!new)>(c: RdPoS.Consensus, s: Scheme<T>, bytes: Bytes)
    requires c.Inv() && ChecksRandomness(s, c.sha3)
    requires var b := BlockCodec.Parse(s, bytes);
      b.Some? && RdPoS.WellOrdered(c.sha3, c.randomList, c.minValidators, b.value.height, b.value.validatorTxs)
    ensures CarriesSeeds(c, BlockCodec.Parse(s, bytes).value)
  {
    var b := BlockCodec.Parse(s, bytes).value;
    RdPoS.RandomnessOfAccepted(c.sha3, c.randomList, c.minValidators, b.height, b.validatorTxs);
    ParsedConsistent(s, bytes);
  }

  lemma ParsedConsistent<T>(s: Scheme<T>, bytes: Bytes)
    requires BlockCodec.Parse(s, bytes).Some?
    ensures BlockCodec.Consistent(s, BlockCodec.Parse(s, bytes).value)
  {
  }

  /** Reads a block and asks the consensus. */
  method ReadAndValidate<T(!new)>(c: RdPoS.Consensus, s: Scheme<T>, signer: Signer, bytes: Bytes, threads: nat)
    returns (block: Option<Block<T>>, valid: bool)
    requires c.Inv() && ChecksRandomness(s, c.sha3)
    ensures block == BlockCodec.Parse(s, bytes)
    ensures valid ==> block.Some? && CarriesSeeds(c, block.value)
    ensures valid ==> signer(block.value.signature, bytes[65..209]) == c.randomList[0]
  {
    block := BlockCodec.FromBytes(s, bytes, threads);
    valid := false;
    if block.Some? {
      valid := c.ValidateBlock(ForConsensus(block.value, signer));
      if valid {
        AcceptedRandomness(c, s, bytes);
        BlockCodec.HashedWindow(s, bytes);
      }
    }
  }
}
