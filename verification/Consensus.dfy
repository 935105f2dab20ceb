/** The block producer: one transaction per sender, the one that pays the highest fee, and the validator
    transactions of the round. */
module Consensus {
  import opened Base
  import opened Messages
  import opened WorldState
  import opened MessageLaws
  import opened Transactions
  import opened BlockLaws
  import opened NodeState
  import opened ValidatorPool
  import opened Node
  import opened AcceptedBlock
  import BlockCodec
  import OrderedDb
  import RdPoS
  import Storage
  import ValidatorBlock

  method BestPerSender(txs: seq<Tx>) returns (best: map<Address, Tx>)
    ensures forall a :: a in best ==> best[a] in txs && best[a].from == a
    ensures forall t :: t in txs ==> t.from in best && t.maxFeePerGas <= best[t.from].maxFeePerGas
    ensures |best| <= |txs|
  {
    best := map[];
    for i := 0 to |txs|
      invariant forall a :: a in best ==> best[a] in txs && best[a].from == a
      invariant forall j :: 0 <= j < i ==> txs[j].from in best && txs[j].maxFeePerGas <= best[txs[j].from].maxFeePerGas
      invariant |best| <= i
    {
      var tx := txs[i];
      if tx.from !in best {
        best := best[tx.from := tx];
      } else if tx.maxFeePerGas > best[tx.from].maxFeePerGas {
        best := best[tx.from := tx];
      }
    }
  }

  /** Copies a map back into a vector, in whatever order the map is iterated. */
  method Flatten(best: map<Address, Tx>) returns (txs: seq<Tx>)
    requires forall a :: a in best ==> best[a].from == a
    ensures DistinctSenders(txs) && |txs| == |best|
    ensures forall t :: t in txs <==> t.from in best && t == best[t.from]
  {
    txs := [];
    var rest := best.Keys;
    while rest != {}
      invariant rest <= best.Keys && |txs| + |rest| == |best|
      invariant DistinctSenders(txs)
      invariant forall t :: t in txs <==> t.from in best && t.from !in rest && t == best[t.from]
    {
      var a :| a in rest;
      rest := rest - {a};
      forall j | 0 <= j < |txs|
        ensures txs[j].from != a
      {
        assert txs[j] in txs;
      }
      txs := txs + [best[a]];
    }
  }

  /** A sender has a transaction in the list that pays at least as high a fee. */
  ghost predicate Represented(tx: Tx, txs: seq<Tx>) {
    exists t :: t in txs && t.from == tx.from && tx.maxFeePerGas <= t.maxFeePerGas
  }

  method PoolEntries(pool: map<Hash, Tx>) returns (txs: seq<Tx>)
    ensures |txs| == |pool|
    ensures forall t :: t in txs <==> exists h :: h in pool && pool[h] == t
  {
    txs := [];
    var rest := pool.Keys;
    while rest != {}
      invariant rest <= pool.Keys && |txs| + |rest| == |pool|
      invariant forall t :: t in txs <==> exists h :: h in pool && h !in rest && pool[h] == t
    {
      var h :| h in rest;
      rest := rest - {h};
      txs := txs + [pool[h]];
    }
  }

  /** Transactions of different senders, all from the pool, among them the best of every pooled sender. */
  ghost predicate FromPool(pool: map<Hash, Tx>, txs: seq<Tx>) {
    && DistinctSenders(txs) && |txs| <= |pool| && AllPooled(pool, txs)
    && (forall h {:trigger Represented(pool[h], txs)} :: h in pool ==> Represented(pool[h], txs))
  }

  ghost predicate AllPooled(pool: map<Hash, Tx>, txs: seq<Tx>) {
    forall t :: t in txs ==> t.hash in pool && pool[t.hash] == t
  }

  ghost predicate ByHash(pool: map<Hash, Tx>) {
    forall h :: h in pool ==> pool[h].hash == h
  }

  /** One transaction per pooled sender. */
  method ChooseTxs(pool: map<Hash, Tx>) returns (txs: seq<Tx>)
    requires ByHash(pool)
    ensures FromPool(pool, txs)
  {
    var pooled := PoolEntries(pool);
    var best := BestPerSender(pooled);
    txs := Flatten(best);
    BestFromPool(pool, pooled, best, txs);
  }

  lemma BestFromPool(pool: map<Hash, Tx>, pooled: seq<Tx>, best: map<Address, Tx>, txs: seq<Tx>)
    requires ByHash(pool) && |pooled| == |pool| && forall t :: t in pooled <==> exists h :: h in pool && pool[h] == t
    requires forall a :: a in best ==> best[a] in pooled && best[a].from == a
    requires forall t :: t in pooled ==> t.from in best && t.maxFeePerGas <= best[t.from].maxFeePerGas
    requires DistinctSenders(txs) && |txs| == |best| <= |pooled|
    requires forall t :: t in txs <==> t.from in best && t == best[t.from]
    ensures FromPool(pool, txs)
  {
    forall t | t in txs
      ensures t.hash in pool && pool[t.hash] == t
    {
      assert t in pooled;
    }
    forall h | h in pool
      ensures Represented(pool[h], txs)
    {
      assert pool[h] in pooled;
      assert best[pool[h].from] in txs;
    }
  }

  function Behaviours(txs: seq<Tx>, behave: Tx -> Behaviour): (bs: seq<Behaviour>)
    ensures |bs| == |txs| && forall i :: 0 <= i < |txs| ==> bs[i] == behave(txs[i])
  {
    seq(|txs|, i requires 0 <= i < |txs| => behave(txs[i]))
  }

  lemma {:induction false} MintsAtMost(txs: seq<Tx>, behave: Tx -> Behaviour, most: nat, i: nat)
    requires i <= |txs| && forall t :: t in txs ==> Mints(t, behave(t)) <= most
    ensures MintsFrom(txs, Behaviours(txs, behave), i) <= (|txs| - i) * most
    decreases |txs| - i
  {
    if i < |txs| {
      MintsAtMost(txs, behave, most, i + 1);
      assert txs[i] in txs;
      assert (|txs| - i) * most == (|txs| - i - 1) * most + most;
    }
  }

  lemma MintsBounded(txs: seq<Tx>, behave: Tx -> Behaviour, most: nat, n: nat)
    requires |txs| <= n && forall t :: t in txs ==> Mints(t, behave(t)) <= most
    ensures MintsFrom(txs, Behaviours(txs, behave), 0) <= n * most
  {
    MintsAtMost(txs, behave, most, 0);
    ProductMonotone(|txs|, n, most);
  }

  /** Every pooled transaction can be processed, and none mints more than `most`. */
  ghost predicate PoolRuns(state: State, pool: map<Hash, Tx>, behave: Tx -> Behaviour, most: nat) {
    forall h :: h in pool ==>
      Acceptable(state.config, state.keys, pool[h], behave(pool[h])) && Mints(pool[h], behave(pool[h])) <= most
  }

  /** A block of pooled transactions needs no validation beyond the consensus's. */
  lemma BlockAdmissible(state: State, block: NodeState.Block, behave: Tx -> Behaviour, most: nat)
    requires PoolRuns(state, state.mempool, behave, most)
    requires AllPooled(state.mempool, block.txs)
    ensures state.Admissible(block, Behaviours(block.txs, behave))
    ensures forall i :: 0 <= i < |block.txs| ==> IsTxStatusValid(state.ValidateTransaction(block.txs[i]))
    ensures forall t :: t in block.txs ==> Mints(t, behave(t)) <= most
  {
    forall i | 0 <= i < |block.txs|
      ensures block.txs[i].hash in state.mempool && state.mempool[block.txs[i].hash] == block.txs[i]
    {
      assert block.txs[i] in block.txs;
    }
  }

  // ---------- Making a block ----------

  /** Signs headers with the key of an address. */
  ghost predicate SignsFor(sign: Bytes -> Bytes, signer: Signer, self: Address) {
    forall header :: |sign(header)| == 65 && signer(sign(header), header) == self
  }

  /** A block with its derived fields, signed. */
  function CreateBlock(
    c: Storage.Chain<Tx, TxValidator>, sha3: Bytes -> Bytes, sign: Bytes -> Bytes, prevBlockHash: Bytes,
    timestamp: nat, height: nat, txs: seq<Tx>, validatorTxs: seq<TxValidator>): FullBlock
  {
    var unsigned := BlockCodec.Block(
      [], prevBlockHash, RdPoS.Randomness(sha3, validatorTxs), c.scheme.validatorRoot(validatorTxs), c.scheme.txRoot(txs),
      timestamp, height, txs, validatorTxs);
    unsigned.(signature := sign(BlockCodec.Header(unsigned)))
  }

  /** The derived fields of a new block belong to its transactions, and its header is signed. */
  lemma Created(
    c: Storage.Chain<Tx, TxValidator>, sha3: Bytes -> Bytes, sign: Bytes -> Bytes, signer: Signer, self: Address,
    prevBlockHash: Bytes, timestamp: nat, height: nat, txs: seq<Tx>, validatorTxs: seq<TxValidator>)
    requires Rules(c, sha3) && SignsFor(sign, signer, self) && |prevBlockHash| == 32
    requires timestamp < TWO_TO_64 && height < TWO_TO_64
    requires RdPoS.AllFor(height, validatorTxs)
    ensures var b := CreateBlock(c, sha3, sign, prevBlockHash, timestamp, height, txs, validatorTxs);
      && BlockCodec.WellSized(b) && BlockCodec.Consistent(c.scheme, b)
      && signer(b.signature, BlockCodec.Header(b)) == self
  {
    OrderedDb.EightBytes();
  }

  /** A block for the next height that the consensus accepts. */
  ghost predicate Formed(node: FullNode, block: FullBlock)
    requires node.Synced()
    reads node.rdpos, node.blocks, node.state
  {
    && BlockCodec.WellSized(block) && BlockCodec.Consistent(node.blocks.c.scheme, block)
    && block.prevBlockHash == node.blocks.c.HashOf(node.blocks.latest)
    && block.height == node.blocks.latest.height + 1 && node.blocks.latest.timestamp <= block.timestamp
    && node.Led(block)
  }

  /** The block of a leader whose validator transactions are in order is one that the consensus accepts, and
      what is derived from its transactions belongs to them. */
  lemma CreatedIsFormed(
    node: FullNode, sign: Bytes -> Bytes, self: Address, timestamp: nat, txs: seq<Tx>, validatorTxs: seq<TxValidator>)
    requires node.Synced() && SignsFor(sign, node.signer, self) && self == node.rdpos.randomList[0]
    requires node.blocks.latest.timestamp <= timestamp < TWO_TO_64 && node.blocks.latest.height + 1 < TWO_TO_64
    requires InOrder(node, validatorTxs)
    ensures Formed(node, CreateBlock(node.blocks.c, node.rdpos.sha3, sign, node.blocks.c.HashOf(node.blocks.latest),
                                     timestamp, node.blocks.latest.height + 1, txs, validatorTxs))
  {
    var c, height := node.blocks.c, node.blocks.latest.height + 1;
    var prev := c.HashOf(node.blocks.latest);
    Created(c, node.rdpos.sha3, sign, node.signer, self, prev, timestamp, height, txs, validatorTxs);
    var b := CreateBlock(c, node.rdpos.sha3, sign, prev, timestamp, height, txs, validatorTxs);
    assert b.height == node.rdpos.latestHeight + 1 && b.validatorTxs == validatorTxs;
    assert RdPoS.WellOrdered(node.rdpos.sha3, node.rdpos.randomList, node.rdpos.minValidators, b.height, b.validatorTxs);
  }

  /** What the pool must be like for the state to keep its invariant. */
  ghost predicate CalmPool(state: State, pool: map<Hash, Tx>, w: World, callbacks: seq<Callback>, room: nat) {
    && (forall h :: h in pool ==> Protected(pool[h], state.config))
    && Healthy(state.config, state.keys, CallbackMints(callbacks, 0) + room, w)
    && forall i :: 0 <= i < |callbacks| ==> state.Harmless(callbacks[i])
  }

  lemma CalmBlock(
    state: State, block: NodeState.Block, behave: Tx -> Behaviour, callbacks: seq<Callback>, room: nat)
    requires CalmPool(state, state.mempool, state.store.Settled(), callbacks, room)
    requires MintsFrom(block.txs, Behaviours(block.txs, behave), 0) <= room
    requires AllPooled(state.mempool, block.txs)
    ensures state.Steady(block, Behaviours(block.txs, behave), callbacks, state.store.Settled())
  {
    forall i | 0 <= i < |block.txs|
      ensures Protected(block.txs[i], state.config)
    {
      assert block.txs[i] in block.txs;
    }
  }

  /** A block of transactions from the pool that the state accepts. */
  ghost predicate Filled(node: FullNode, block: FullBlock, behave: Tx -> Behaviour, callbacks: seq<Callback>, calm: bool)
    reads node.state, node.state.store
  {
    var state, view, bs := node.state, node.View(block), Behaviours(block.txs, behave);
    && FromPool(state.mempool, block.txs)
    && state.Admissible(view, bs) && state.Acceptance(view, true)
    && Healthy(state.config, state.keys, MintsFrom(block.txs, bs, 0), state.store.Settled())
    && (calm ==> state.Steady(view, bs, callbacks, state.store.Settled()))
  }

  /** The validator transactions of the round. */
  method FinishRound(node: FullNode, entries: seq<TxValidator>) returns (validatorTxs: seq<TxValidator>)
    requires node.Scheduled() && ValidatorBlock.Complete(node.rdpos) && ValidatorBlock.Lists(entries, node.rdpos.mempool)
    ensures InOrder(node, validatorTxs)
  {
    validatorTxs := ValidatorBlock.BuildValidatorTxs(node.rdpos, entries);
  }

  /** What the consensus demands of the validator transactions of the next block. */
  ghost predicate InOrder(node: FullNode, validatorTxs: seq<TxValidator>)
    reads node.rdpos
    requires node.rdpos.minValidators < |node.rdpos.randomList|
  {
    RdPoS.WellOrdered(node.rdpos.sha3, node.rdpos.randomList, node.rdpos.minValidators,
                      node.rdpos.latestHeight + 1, validatorTxs)
  }

  /** The block of a round that the node leads. */
  method Draft(
    node: FullNode, self: Address, sign: Bytes -> Bytes, now: nat, txs: seq<Tx>, validatorTxs: seq<TxValidator>)
    returns (block: FullBlock)
    requires node.Synced() && SignsFor(sign, node.signer, self) && self == node.rdpos.randomList[0]
    requires InOrder(node, validatorTxs)
    requires now < TWO_TO_64 && node.blocks.latest.height + 1 < TWO_TO_64
    ensures Formed(node, block) && block.txs == txs && block.validatorTxs == validatorTxs
    ensures block.timestamp >= now && (block.timestamp == now || block.timestamp == node.blocks.latest.timestamp)
  {
    var latest := node.blocks.latest;
    var timestamp := if now < latest.timestamp then latest.timestamp else now;
    LatestTime(node);
    CreatedIsFormed(node, sign, self, timestamp, txs, validatorTxs);
    block := CreateBlock(node.blocks.c, node.rdpos.sha3, sign, node.blocks.c.HashOf(latest), timestamp,
                         latest.height + 1, txs, validatorTxs);
  }

  /** It is the node's turn, its validator transactions are complete, and numbers fit. */
  ghost predicate Leads(node: FullNode, entries: seq<TxValidator>, self: Address, sign: Bytes -> Bytes, now: nat)
    requires node.Scheduled()
    reads node.rdpos, node.blocks
  {
    && SignsFor(sign, node.signer, self) && self == node.rdpos.randomList[0]
    && ValidatorBlock.Complete(node.rdpos) && ValidatorBlock.Lists(entries, node.rdpos.mempool)
    && now < TWO_TO_64 && node.blocks.latest.height + 1 < TWO_TO_64
  }

  /** Every pooled transaction can be processed, there is room for all that they mint, and, if calm is asked
      for, the state will keep its invariant. */
  ghost predicate RoomForPool(
    state: State, pool: map<Hash, Tx>, w: World, behave: Tx -> Behaviour, callbacks: seq<Callback>,
    most: nat, room: nat, calm: bool)
  {
    && PoolRuns(state, pool, behave, most) && |pool| * most <= room
    && Healthy(state.config, state.keys, room, w)
    && (calm ==> CalmPool(state, pool, w, callbacks, room))
  }

  /** The block of a round that the node leads, from both of its mempools, whatever is in them. */
  method Propose(
    node: FullNode, entries: seq<TxValidator>, self: Address, sign: Bytes -> Bytes, now: nat,
    ghost behave: Tx -> Behaviour, ghost callbacks: seq<Callback>, ghost most: nat, ghost room: nat, ghost calm: bool)
    returns (block: FullBlock)
    requires node.Synced() && node.state.Inv() && Leads(node, entries, self, sign, now)
    requires RoomForPool(node.state, node.state.mempool, node.state.store.Settled(), behave, callbacks, most, room, calm)
    ensures node.Synced() && node.state.Inv() && Formed(node, block) && Filled(node, block, behave, callbacks, calm)
  {
    PoolByHash(node.state);
    var txs := ChooseTxs(node.state.mempool);
    var validatorTxs := FinishRound(node, entries);
    block := Draft(node, self, sign, now, txs, validatorTxs);
    PoolBlock(node, block, behave, callbacks, most, room, calm);
  }

  /** The node makes the block of a round that it leads: it is accepted and processed to the end by all parts
      of the node. */
  method ProduceBlock(
    node: FullNode, entries: seq<TxValidator>, self: Address, sign: Bytes -> Bytes, now: nat,
    behave: Tx -> Behaviour, callbacks: seq<Callback>, ghost most: nat, ghost room: nat, ghost calm: bool)
    returns (block: FullBlock, status: BlockStatus, completed: bool)
    requires node.Synced() && node.state.Inv() && Leads(node, entries, self, sign, now)
    requires RoomForPool(node.state, node.state.mempool, node.state.store.Settled(), behave, callbacks, most, room, calm)
    modifies node.state, node.state.store, node.rdpos, node.blocks
    ensures status.Valid? && completed
    ensures node.blocks.latest == block && node.blocks.chain == old(node.blocks.chain) + [block]
    ensures FromPool(old(node.state.mempool), block.txs) && BlockCodec.Consistent(node.blocks.c.scheme, block)
    ensures node.blocks.c.Storable(block) && node.blocks.c.NewHash(old(node.blocks.chain), block) ==> node.Synced()
    ensures calm ==> node.state.Inv()
  {
    block := Propose(node, entries, self, sign, now, behave, callbacks, most, room, calm);
    status, completed := Take(node, block, behave, callbacks, calm);
  }

  /** A block that is formed and filled is taken by all parts of the node. */
  method Take(node: FullNode, block: FullBlock, behave: Tx -> Behaviour, callbacks: seq<Callback>, ghost calm: bool)
    returns (status: BlockStatus, completed: bool)
    requires node.Synced() && node.state.Inv() && Formed(node, block) && Filled(node, block, behave, callbacks, calm)
    modifies node.state, node.state.store, node.rdpos, node.blocks
    ensures status.Valid? && completed
    ensures node.blocks.latest == block && node.blocks.chain == old(node.blocks.chain) + [block]
    ensures FromPool(old(node.state.mempool), block.txs) && BlockCodec.Consistent(node.blocks.c.scheme, block)
    ensures node.blocks.c.Storable(block) && node.blocks.c.NewHash(old(node.blocks.chain), block) ==> node.Synced()
    ensures calm ==> node.state.Inv()
  {
    status, completed := node.TryProcessNextBlock(block, Behaviours(block.txs, behave), callbacks);
  }

  lemma PoolByHash(state: State)
    requires state.Inv()
    ensures ByHash(state.mempool)
  {
    forall h | h in state.mempool
      ensures state.mempool[h].hash == h
    {
      assert state.Pooled(h, state.mempool[h]);
    }
  }

  lemma LatestTime(node: FullNode)
    requires node.Synced()
    ensures node.blocks.latest.timestamp < TWO_TO_64
  {
    OrderedDb.EightBytes();
    assert node.blocks.c.StorableAt(node.blocks.chain, |node.blocks.chain| - 1);
  }

  /** A block of transactions chosen from the pool is one that the state accepts. */
  lemma PoolBlock(
    node: FullNode, block: FullBlock, behave: Tx -> Behaviour, callbacks: seq<Callback>, most: nat, room: nat,
    calm: bool)
    requires node.Synced() && node.state.Inv() && Formed(node, block) && FromPool(node.state.mempool, block.txs)
    requires RoomForPool(node.state, node.state.mempool, node.state.store.Settled(), behave, callbacks, most, room, calm)
    ensures Filled(node, block, behave, callbacks, calm)
  {
    node.Names(block);
    FillState(node.state, node.View(block), behave, callbacks, most, room, calm);
  }

  lemma FillState(
    state: State, view: NodeState.Block, behave: Tx -> Behaviour, callbacks: seq<Callback>, most: nat, room: nat,
    calm: bool)
    requires state.Inv() && AllPooled(state.mempool, view.txs) && |view.txs| <= |state.mempool|
    requires RoomForPool(state, state.mempool, state.store.Settled(), behave, callbacks, most, room, calm)
    requires view.prevHash == state.latest.hash && state.latest.timestamp <= view.timestamp
    ensures var bs := Behaviours(view.txs, behave);
      && state.Admissible(view, bs) && state.Acceptance(view, true)
      && Healthy(state.config, state.keys, MintsFrom(view.txs, bs, 0), state.store.Settled())
      && (calm ==> state.Steady(view, bs, callbacks, state.store.Settled()))
  {
    BlockAdmissible(state, view, behave, most);
    MintsBounded(view.txs, behave, most, |state.mempool|);
    if calm {
      CalmBlock(state, view, behave, callbacks, room);
    }
  }
}
