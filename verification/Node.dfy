/** A node: its state, its consensus and its block store, which follow the same chain. */
module Node {
  import opened Base
  import opened WorldState
  import opened Messages
  import opened ValidatorPool
  import opened Transactions
  import opened BlockLaws
  import opened NodeState
  import opened WorldInvariant
  import ExecutionContext
  import RdPoS
  import Storage
  import BlockCodec
  import BigEndian
  import opened AcceptedBlock

  type FullBlock = AcceptedBlock.Block<Tx>

  /** Hashes and derived fields have 32 bytes, and randomness is checked when a block is read. */
  ghost predicate Rules(c: Storage.Chain<Tx, TxValidator>, sha3: Bytes -> Bytes) {
    && c.Sound() && ChecksRandomness(c.scheme, sha3)
    && (forall x :: |sha3(x)| == 32)
    && (forall txs :: |c.scheme.txRoot(txs)| == 32)
    && (forall txs :: |c.scheme.validatorRoot(txs)| == 32)
  }

  class FullNode {
    const state: State
    const rdpos: RdPoS.Consensus
    const blocks: Storage.BlockStore<Tx, TxValidator>
    const signer: Signer

    /** What the state sees of a block. */
    function View(b: FullBlock): NodeState.Block {
      ForState(b, blocks.c.hash, (tx: Tx) => tx)
    }

    /** The consensus stands at the latest stored block, and the next round is decided by its randomness. */
    ghost predicate Scheduled()
      reads rdpos, blocks
    {
      && rdpos.Inv() && blocks.Valid()
      && rdpos.latestHeight == blocks.latest.height && rdpos.bestRandomSeed == blocks.latest.randomness
    }

    /** All three parts stand at the same block. */
    ghost predicate Synced()
      reads state, rdpos, blocks
    {
      Rules(blocks.c, rdpos.sha3) && Scheduled() && state.latest == View(blocks.latest)
    }

    /** A new chain. */
    constructor (
      config: Config, store: ExecutionContext.Store, c: Storage.Chain<Tx, TxValidator>, indexing: bool, signer: Signer,
      sha3: Bytes -> Bytes, validators: seq<Address>, minValidators: nat, genesis: FullBlock, ghost keys: set<Address>)
      requires config.restore.Popped? && Sane(config, store.Settled()) && Healthy(config, keys, 0, store.Settled())
      requires Rules(c, sha3) && c.WellFormed([genesis])
      ensures state.Inv() && state.store == store && state.config == config && state.keys == keys
      ensures minValidators < |rdpos.validators| ==> Synced()
      ensures rdpos.validators == RdPoS.InsertAll([], validators) && blocks.chain == [genesis] && blocks.c == c
    {
      this.state := new State(config, store, ForState(genesis, c.hash, (tx: Tx) => tx), keys);
      this.rdpos := new RdPoS.Consensus(sha3, validators, minValidators, genesis.height, genesis.randomness);
      this.blocks := new Storage.BlockStore(c, indexing, genesis);
      this.signer := signer;
    }

    /** What the consensus demands of the next block. */
    predicate Led(block: FullBlock)
      reads rdpos
      requires rdpos.minValidators < |rdpos.randomList|
    {
      && signer(block.signature, BlockCodec.Header(block)) == rdpos.randomList[0]
      && RdPoS.WellOrdered(rdpos.sha3, rdpos.randomList, rdpos.minValidators, block.height, block.validatorTxs)
    }

    /**
     * Validates a block, processes it and stores it. A block that was validated and whose senders are
     * distinct is taken by all three parts: storing it does not fail after it was processed.
     */
    method TryProcessNextBlock(block: FullBlock, behaviours: seq<Behaviour>, callbacks: seq<Callback>)
      returns (status: BlockStatus, completed: bool)
      requires Synced() && state.Inv() && BlockCodec.WellSized(block) && state.Admissible(View(block), behaviours)
      requires Healthy(state.config, state.keys, MintsFrom(block.txs, behaviours, 0), state.store.Settled())
      modifies state, state.store, rdpos, blocks
      ensures status.Valid? <==> old(Follows(block))
      ensures status.Valid? <==>
        old(block.height == blocks.latest.height + 1 && Led(block) && state.Acceptance(View(block), true))
      ensures completed <==> status.Valid? && DistinctSenders(block.txs)
      ensures !completed ==> unchanged(rdpos) && unchanged(blocks) && unchanged(state)
      ensures completed ==> blocks.latest == block && blocks.chain == old(blocks.chain) + [block]
      ensures completed && blocks.c.Storable(block) && blocks.c.NewHash(old(blocks.chain), block) ==> Synced()
      ensures completed && old(state.Steady(View(block), behaviours, callbacks, state.store.Settled())) ==> state.Inv()
    {
      AcceptedIff(block);
      status, completed := Decide(block, behaviours, callbacks);
      if completed {
        Append(block);
      }
    }

    /** Asks the consensus and has the state process the block. */
    method Decide(block: FullBlock, behaviours: seq<Behaviour>, callbacks: seq<Callback>)
      returns (status: BlockStatus, completed: bool)
      requires Synced() && state.Inv() && BlockCodec.WellSized(block) && state.Admissible(View(block), behaviours)
      requires Healthy(state.config, state.keys, MintsFrom(block.txs, behaviours, 0), state.store.Settled())
      modifies state, state.store
      ensures status.Valid? <==>
        block.height == blocks.latest.height + 1 && Led(block) && old(state.Acceptance(View(block), true))
      ensures completed <==> status.Valid? && DistinctSenders(block.txs)
      ensures !completed ==> unchanged(state)
      ensures completed ==> block.prevBlockHash == blocks.c.HashOf(blocks.latest) && state.latest == View(block)
      ensures completed && old(state.Steady(View(block), behaviours, callbacks, state.store.Settled())) ==> state.Inv()
    {
      var verdict := rdpos.ValidateBlock(ForConsensus(block, signer));
      assert verdict <==> Led(block);
      status, completed := Process(block, verdict, behaviours, callbacks);
    }

    method Process(block: FullBlock, verdict: bool, behaviours: seq<Behaviour>, callbacks: seq<Callback>)
      returns (status: BlockStatus, completed: bool)
      requires Synced() && state.Inv() && BlockCodec.WellSized(block) && state.Admissible(View(block), behaviours)
      requires Healthy(state.config, state.keys, MintsFrom(block.txs, behaviours, 0), state.store.Settled())
      modifies state, state.store
      ensures status.Valid? <==>
        block.height == blocks.latest.height + 1 && verdict && old(state.Acceptance(View(block), true))
      ensures completed <==> status.Valid? && DistinctSenders(block.txs)
      ensures !completed ==> unchanged(state)
      ensures completed ==> block.prevBlockHash == blocks.c.HashOf(blocks.latest) && state.latest == View(block)
      ensures completed && old(state.Steady(View(block), behaviours, callbacks, state.store.Settled())) ==> state.Inv()
    {
      Names(block);
      state.AcceptanceVerdict(View(block), verdict);
      ghost var done;
      status, completed, done := state.TryProcessNextBlock(View(block), verdict, behaviours, callbacks);
    }

    /** Moves to a block that names the latest one and has the next height. */
    method Append(block: FullBlock)
      requires Scheduled() && BlockCodec.WellSized(block)
      requires block.prevBlockHash == blocks.c.HashOf(blocks.latest) && block.height == blocks.latest.height + 1
      modifies rdpos, blocks
      ensures blocks.latest == block && blocks.chain == old(blocks.chain) + [block]
      ensures blocks.c.Storable(block) && blocks.c.NewHash(old(blocks.chain), block) ==> Scheduled()
    {
      rdpos.ProcessBlock(ForConsensus(block, signer));
      blocks.AppendNext(block);
    }

    /** A transaction that is pooled already, or that its sender can pay for and whose nonce is the next one. */
    predicate Payable(tx: Tx)
      reads state, state.store
    {
      || tx.hash in state.mempool
      || (&& tx.from in state.store.accounts
          && Cost(tx) <= state.store.accounts[tx.from].balance
          && tx.nonce == state.store.accounts[tx.from].nonce)
    }

    predicate AllPayable(txs: seq<Tx>)
      reads state, state.store
    {
      forall i :: 0 <= i < |txs| ==> Payable(txs[i])
    }

    /** The block follows the latest one and does not go back in time. */
    predicate Continues(block: FullBlock)
      reads blocks
    {
      && block.height == blocks.latest.height + 1 && block.prevBlockHash == blocks.c.HashOf(blocks.latest)
      && blocks.latest.timestamp <= block.timestamp
    }

    /** The block is signed by the validator that the hash of the latest randomness points at, and carries a
        commitment and its opening of each of the validators after the leader. */
    predicate Signed(block: FullBlock)
      reads rdpos, blocks
      requires rdpos.validators != [] && rdpos.minValidators < |rdpos.randomList|
    {
      var n, txs := rdpos.minValidators, block.validatorTxs;
      && signer(block.signature, BlockCodec.Header(block))
         == rdpos.validators[BigEndian.Decode(rdpos.sha3(blocks.latest.randomness)) % |rdpos.validators|]
      && |txs| == 2 * n && RdPoS.DistinctHashes(txs, n)
      && (forall i :: 0 <= i < n ==> RdPoS.Opening(rdpos.sha3, rdpos.randomList[i + 1], block.height, txs[i], txs[i + n]))
    }

    /** The next block, told by its fields. */
    predicate Follows(block: FullBlock)
      reads state, state.store, rdpos, blocks
      requires rdpos.validators != [] && rdpos.minValidators < |rdpos.randomList|
    {
      Continues(block) && Signed(block) && AllPayable(block.txs)
    }

    /** Exactly such blocks are accepted. */
    lemma AcceptedIff(block: FullBlock)
      requires Synced() && BlockCodec.WellSized(block)
      ensures Follows(block) <==>
        block.height == blocks.latest.height + 1 && Led(block) && state.Acceptance(View(block), true)
    {
      LedIff(block);
      AcceptanceFields(block);
      AcceptanceIff(block, state.Acceptance(View(block), true));
    }

    lemma LedIff(block: FullBlock)
      requires Scheduled()
      ensures Signed(block) <==> Led(block)
    {
      rdpos.LeaderIsDrawn();
      RdPoS.WellOrderedIff(rdpos.sha3, rdpos.randomList, rdpos.minValidators, block.height, block.validatorTxs);
    }

    lemma AcceptanceIff(block: FullBlock, accepted: bool)
      requires accepted <==>
        && block.prevBlockHash == blocks.c.HashOf(blocks.latest) && blocks.latest.timestamp <= block.timestamp
        && AllValid(block.txs)
      ensures Continues(block) && AllPayable(block.txs) <==> block.height == blocks.latest.height + 1 && accepted
    {
      PayableIff(block.txs);
    }

    predicate AllValid(txs: seq<Tx>)
      reads state, state.store
    {
      forall i :: 0 <= i < |txs| ==> IsTxStatusValid(state.ValidateTransaction(txs[i]))
    }

    lemma AcceptanceFields(block: FullBlock)
      requires Synced() && BlockCodec.WellSized(block)
      ensures state.Acceptance(View(block), true) <==>
        && block.prevBlockHash == blocks.c.HashOf(blocks.latest) && blocks.latest.timestamp <= block.timestamp
        && AllValid(block.txs)
    {
      Names(block);
    }

    lemma PayableIff(txs: seq<Tx>)
      ensures AllPayable(txs) <==> AllValid(txs)
    {
      forall i | 0 <= i < |txs|
        ensures Payable(txs[i]) <==> IsTxStatusValid(state.ValidateTransaction(txs[i]))
      {
        PayableTx(txs[i]);
      }
    }

    lemma PayableTx(tx: Tx)
      ensures Payable(tx) <==> IsTxStatusValid(state.ValidateTransaction(tx))
    {
    }

    /** The state's check of the predecessor is the store's. */
    lemma Names(block: FullBlock)
      requires Synced() && BlockCodec.WellSized(block)
      ensures View(block).txs == block.txs && View(block).height == block.height
      ensures View(block).prevHash == state.latest.hash <==> block.prevBlockHash == blocks.c.HashOf(blocks.latest)
    {
      SamePredecessor(blocks.latest, block, blocks.c.hash, (tx: Tx) => tx);
    }
  }
}
