/** The node's state: accounts, mempool and the latest block, changed by one public operation at a time. */
module NodeState {
  import opened Base
  import opened WorldState
  import opened Messages
  import opened ExecutionContext
  import opened Balances
  import opened MessageLaws
  import opened Transactions
  import opened BlockLaws
  import opened WorldInvariant
  import Snapshot
  import ContractHost

  datatype Block = Block(hash: Hash, prevHash: Hash, height: nat, timestamp: nat, txs: seq<Tx>)

  datatype TxStatus = ValidNew | ValidExisting | InvalidNonce | InvalidBalance

  datatype BlockStatus = Valid | InvalidWrongHeight | InvalidErroneous

  /** A contract's block observer, called by a message from the contract to itself. */
  datatype Callback = Callback(contract: Address, message: Message)

  const OBSERVER_GAS: nat := 5_000_000

  /** What a callback of an observer leaves behind. */
  function RunCallback(c: Config, callback: Callback, w: World): World {
    Snapshot.Settle(Snapshot.Execute(c, callback.contract, callback.message, OBSERVER_GAS, w).world)
  }

  function RunCallbacks(c: Config, callbacks: seq<Callback>, w: World, n: nat): World
    requires n <= |callbacks|
  {
    if n == 0 then w else RunCallback(c, callbacks[n - 1], RunCallbacks(c, callbacks, w, n - 1))
  }

  /** The most that the callbacks from `i` on can mint. */
  function CallbackMints(callbacks: seq<Callback>, i: nat): nat
    requires i <= |callbacks|
    decreases |callbacks| - i
  {
    if i == |callbacks| then 0 else MintBound(callbacks[i].message) + CallbackMints(callbacks, i + 1)
  }

  predicate IsTxStatusValid(s: TxStatus) {
    s.ValidNew? || s.ValidExisting?
  }

  class State {
    const config: Config
    const store: Store
    var mempool: map<Hash, Tx>
    var latest: Block
    ghost const keys: set<Address>  // addresses with a private key; no contract lives on them

    /** Every pooled transaction is valid against the accounts as they are now. */
    ghost predicate Inv()
      reads this, store
    {
      && config.restore.Popped? && Sane(config, store.Settled())
      && Healthy(config, keys, 0, store.Settled())
      && (forall h :: h in mempool ==> Pooled(h, mempool[h]))
    }

    ghost predicate Pooled(h: Hash, tx: Tx)
      reads this, store
    {
      tx.hash == h && tx.from in keys && tx.from in store.accounts && Ready(tx, store.Settled())
    }

    constructor (config: Config, store: Store, genesis: Block, ghost keys: set<Address>)
      requires config.restore.Popped? && Sane(config, store.Settled()) && Healthy(config, keys, 0, store.Settled())
      ensures Inv() && mempool == map[] && latest == genesis
      ensures this.config == config && this.store == store && this.keys == keys
    {
      this.config, this.store, mempool, latest := config, store, map[], genesis;
      this.keys := keys;
    }

    /** A transaction already in the mempool is not validated again. */
    function ValidateTransaction(tx: Tx): TxStatus
      reads this, store
    {
      if tx.hash in mempool then ValidExisting
      else if tx.from !in store.accounts then InvalidBalance
      else if Cost(tx) > store.accounts[tx.from].balance then InvalidBalance
      else if store.accounts[tx.from].nonce != tx.nonce then InvalidNonce
      else ValidNew
    }

    lemma ValidNewIsReady(tx: Tx)
      ensures ValidateTransaction(tx).ValidNew? <==>
              tx.hash !in mempool && tx.from in store.accounts && Ready(tx, store.Settled())
    {
      CanonicalUpdate(store.accounts, tx.from, Lookup(store.accounts, tx.from));
    }

    method AddTx(tx: Tx) returns (status: TxStatus)
      requires Inv() && tx.from in keys
      modifies this`mempool
      ensures Inv()
      ensures status == old(ValidateTransaction(tx))
      ensures mempool == if status.ValidNew? then old(mempool)[tx.hash := tx] else old(mempool)
    {
      status := ValidateTransaction(tx);
      ValidNewIsReady(tx);
      if status.ValidNew? {
        mempool := mempool[tx.hash := tx];
      }
    }

    /** `rdposValid` stands for the verdict of the consensus on the block. */
    ghost predicate Acceptance(block: Block, rdposValid: bool)
      reads this, store
    {
      && block.prevHash == latest.hash
      && latest.timestamp <= block.timestamp
      && rdposValid
      && (forall i :: 0 <= i < |block.txs| ==> IsTxStatusValid(ValidateTransaction(block.txs[i])))
    }

    lemma AcceptanceVerdict(block: Block, rdposValid: bool)
      ensures Acceptance(block, rdposValid) <==> rdposValid && Acceptance(block, true)
      ensures Acceptance(block, true) ==> block.prevHash == latest.hash
    {
    }

    method ValidateNextBlock(block: Block, rdposValid: bool) returns (status: BlockStatus)
      ensures status.InvalidWrongHeight? <==> block.height != latest.height + 1
      ensures status.Valid? <==> block.height == latest.height + 1 && Acceptance(block, rdposValid)
    {
      if block.height != latest.height + 1 {
        return InvalidWrongHeight;
      }
      if block.prevHash != latest.hash || latest.timestamp > block.timestamp || !rdposValid {
        return InvalidErroneous;
      }
      for i := 0 to |block.txs|
        invariant forall j :: 0 <= j < i ==> IsTxStatusValid(ValidateTransaction(block.txs[j]))
      {
        if !IsTxStatusValid(ValidateTransaction(block.txs[i])) {
          return InvalidErroneous;
        }
      }
      return Valid;
    }

    /** Throws, here by returning false, when the sender cannot afford the transaction or its nonce is off. */
    method ProcessTransaction(tx: Tx, b: Behaviour) returns (ok: bool)
      requires config.restore.Popped?
      modifies store
      ensures ok <==> Ready(tx, old(store.Settled()))
      ensures store.Settled() == if ok then Process(tx, b, config, old(store.Settled())).value.world else old(store.Settled())
      ensures old(store.accounts).Keys <= store.accounts.Keys
    {
      ok := CheckSender(tx);
      if ok {
        RunTransaction(tx, b);
      }
    }

    /** Looking the sender up may create its account. */
    method CheckSender(tx: Tx) returns (ok: bool)
      modifies store
      ensures ok <==> Ready(tx, old(store.Settled()))
      ensures store.Settled() == old(store.Settled()) && old(store.accounts).Keys <= store.accounts.Keys
    {
      var sender := Lookup(store.accounts, tx.from);
      CanonicalUpdate(store.accounts, tx.from, sender);
      PutLookup(Canonical(store.accounts), tx.from);
      store.accounts := store.accounts[tx.from := sender];
      ok := Cost(tx) <= sender.balance && sender.nonce == tx.nonce;
    }

    method RunTransaction(tx: Tx, b: Behaviour)
      requires config.restore.Popped? && Ready(tx, store.Settled())
      modifies store
      ensures store.Settled() == Process(tx, b, config, old(store.Settled())).value.world
      ensures old(store.accounts).Keys <= store.accounts.Keys
    {
      var outcome, gasLeft, _ := ContractHost.ExecuteOn(
        store, config, tx.from, ToMessage(tx, b), Wrap64(tx.gasLimit));
      Debit(tx, Wrap64(Wrap256(tx.gasLimit - gasLeft)));
    }

    method Debit(tx: Tx, gasUsed: nat)
      modifies store
      ensures store.Settled() == Charge(tx, gasUsed, old(store.Settled()))
      ensures old(store.accounts).Keys <= store.accounts.Keys
    {
      var sender := Lookup(store.accounts, tx.from);
      var charged := sender.(
        nonce := Wrap64(sender.nonce + 1),
        balance := Wrap256(sender.balance - Wrap256(gasUsed * tx.maxFeePerGas)));
      CanonicalUpdate(store.accounts, tx.from, charged);
      store.accounts := store.accounts[tx.from := charged];
    }

    /** The behaviours match the block, and a hash already pooled names the same transaction. */
    ghost predicate Admissible(block: Block, behaviours: seq<Behaviour>)
      reads this, store
    {
      && |behaviours| == |block.txs|
      && (forall i :: 0 <= i < |block.txs| ==> Acceptable(config, keys, block.txs[i], behaviours[i]))
      && (forall i :: 0 <= i < |block.txs| && block.txs[i].hash in mempool ==> mempool[block.txs[i].hash] == block.txs[i])
    }

    /** Processing transactions that were ready together completes exactly when no sender repeats. It stops
        at the first sender that does, and what was done before is not taken back. */
    method ProcessAll(txs: seq<Tx>, behaviours: seq<Behaviour>, ghost room: nat)
      returns (completed: bool, ghost done: nat)
      requires config.restore.Popped? && |behaviours| == |txs|
      requires Healthy(config, keys, room + MintsFrom(txs, behaviours, 0), store.Settled())
      requires forall i :: 0 <= i < |txs| ==> Acceptable(config, keys, txs[i], behaviours[i])
      requires forall i :: 0 <= i < |txs| ==> Ready(txs[i], store.Settled())
      modifies store
      ensures BlockEnds(config, keys, room, txs, behaviours, old(store.Settled()), completed, done, store.Settled())
      ensures old(store.accounts).Keys <= store.accounts.Keys
    {
      ghost var start := store.Settled();
      ReadySameNonces(txs, start);
      StartBlock(config, keys, room, txs, behaviours, start);
      for i := 0 to |txs|
        invariant AtTx(config, keys, room, txs, behaviours, start, i, store.Settled())
        invariant old(store.accounts).Keys <= store.accounts.Keys
      {
        var ok := ProcessNext(txs, behaviours, i, start, room);
        if !ok {
          return false, i;
        }
      }
      FinishBlock(config, keys, room, txs, behaviours, start, store.Settled());
      return true, |txs|;
    }

    /** One turn of the loop. */
    method ProcessNext(txs: seq<Tx>, behaviours: seq<Behaviour>, i: nat, ghost start: World, ghost room: nat)
      returns (ok: bool)
      requires config.restore.Popped? && i < |txs| == |behaviours| && SameNonces(txs)
      requires AtTx(config, keys, room, txs, behaviours, start, i, store.Settled())
      requires forall q :: 0 <= q < |txs| ==> Acceptable(config, keys, txs[q], behaviours[q])
      modifies store
      ensures ok ==> AtTx(config, keys, room, txs, behaviours, start, i + 1, store.Settled())
      ensures !ok ==> BlockEnds(config, keys, room, txs, behaviours, start, false, i, store.Settled())
      ensures old(store.accounts).Keys <= store.accounts.Keys
    {
      ghost var w := store.Settled();
      ok := ProcessTransaction(txs[i], behaviours[i]);
      if ok {
        NextTx(config, keys, room, txs, behaviours, start, i, w);
      } else {
        StopAtTx(config, keys, room, txs, behaviours, start, i, w);
      }
    }

    /** Drops the block's transactions and whatever is no longer valid. */
    method RefreshMempool(block: Block)
      requires forall h :: h in mempool ==>
        mempool[h].hash == h && mempool[h].from in keys && mempool[h].from in store.accounts
      modifies this`mempool
      ensures mempool == map h | h in old(mempool) && Survives(block, old(mempool)[h], store.Settled()) :: old(mempool)[h]
      ensures forall h, i :: h in mempool && 0 <= i < |block.txs| ==> block.txs[i].hash != h
      ensures forall h :: h in old(mempool) && h !in mempool ==>
        !Ready(old(mempool)[h], store.Settled()) || exists i :: 0 <= i < |block.txs| && block.txs[i].hash == h
      ensures config.restore.Popped? && Sane(config, store.Settled()) && Healthy(config, keys, 0, store.Settled()) ==> Inv()
    {
      DropIncluded(block);
      Revalidate();
    }

    ghost predicate Included(txs: seq<Tx>, h: Hash) {
      exists j :: 0 <= j < |txs| && txs[j].hash == h
    }

    method DropIncluded(block: Block)
      modifies this`mempool
      ensures mempool == map h | h in old(mempool) && !Included(block.txs, h) :: old(mempool)[h]
    {
      ghost var before := mempool;
      for i := 0 to |block.txs|
        invariant forall h :: h in mempool <==> h in before && !Included(block.txs[..i], h)
        invariant forall h :: h in mempool ==> mempool[h] == before[h]
      {
        assert block.txs[..i + 1] == block.txs[..i] + [block.txs[i]];
        forall h
          ensures Included(block.txs[..i + 1], h) <==> Included(block.txs[..i], h) || h == block.txs[i].hash
        {
          IncludedNext(block.txs, i, h);
        }
        mempool := mempool - {block.txs[i].hash};
      }
      assert block.txs[..|block.txs|] == block.txs;
    }

    lemma IncludedNext(txs: seq<Tx>, i: nat, h: Hash)
      requires i < |txs|
      ensures Included(txs[..i + 1], h) <==> Included(txs[..i], h) || h == txs[i].hash
    {
      var longer := txs[..i + 1];
      assert longer[i] == txs[i];
      if Included(txs[..i], h) {
        var j :| 0 <= j < i && txs[..i][j].hash == h;
        assert longer[j].hash == h;
      }
      if Included(longer, h) {
        var j :| 0 <= j < |longer| && longer[j].hash == h;
        assert j < i ==> txs[..i][j].hash == h;
      }
    }

    method Revalidate()
      requires forall h :: h in mempool ==> mempool[h].hash == h
      modifies this`mempool
      ensures mempool == map h | h in old(mempool) && StillValid(old(mempool)[h]) :: old(mempool)[h]
    {
      var copy := mempool;
      mempool := map[];
      var rest := copy.Keys;
      while rest != {}
        invariant rest <= copy.Keys
        invariant forall h :: h in mempool <==> h in copy && h !in rest && StillValid(copy[h])
        invariant forall h :: h in mempool ==> mempool[h] == copy[h]
      {
        var h :| h in rest;
        rest := rest - {h};
        ValidNewIsReady(copy[h]);
        if IsTxStatusValid(ValidateTransaction(copy[h])) {
          mempool := mempool[h := copy[h]];
        }
      }
    }

    ghost predicate StillValid(tx: Tx)
      reads this, store
    {
      tx.from in store.accounts && Ready(tx, store.Settled())
    }

    /** A pooled transaction outlives a block that does not include it and leaves its sender ready. */
    ghost predicate Survives(block: Block, tx: Tx, w: World) {
      !Included(block.txs, tx.hash) && Ready(tx, w)
    }

    ghost predicate Harmless(callback: Callback) {
      && callback.contract !in keys
      && (forall k :: k in keys ==> Avoids(callback.message, k))
    }

    /** Callbacks that keep away from keys, and balances with room for what they mint. */
    ghost predicate HarmlessAll(callbacks: seq<Callback>, w: World)
      reads this
    {
      && Healthy(config, keys, CallbackMints(callbacks, 0), w)
      && forall i :: 0 <= i < |callbacks| ==> Harmless(callbacks[i])
    }

    /** Observers run after the mempool was refreshed and still cannot invalidate what is in it. */
    method NotifyObservers(callbacks: seq<Callback>)
      requires config.restore.Popped?
      modifies store
      ensures store.Settled() == RunCallbacks(config, callbacks, old(store.Settled()), |callbacks|)
      ensures old(Inv() && HarmlessAll(callbacks, store.Settled())) ==> Inv()
    {
      ghost var harmless := Inv() && HarmlessAll(callbacks, store.Settled());
      for i := 0 to |callbacks|
        invariant harmless ==> Inv() && Healthy(config, keys, CallbackMints(callbacks, i), store.Settled())
        invariant store.Settled() == RunCallbacks(config, callbacks, old(store.Settled()), i)
      {
        NotifyObserver(callbacks[i], CallbackMints(callbacks, i + 1));
      }
    }

    method NotifyObserver(callback: Callback, ghost room: nat)
      requires config.restore.Popped?
      modifies store
      ensures store.Settled() == RunCallback(config, callback, old(store.Settled()))
      ensures old(Inv() && Harmless(callback) && Healthy(config, keys, MintBound(callback.message) + room, store.Settled())) ==>
        Inv() && Healthy(config, keys, room, store.Settled())
    {
      ghost var w := store.Settled();
      ghost var good := Inv() && Harmless(callback) && Healthy(config, keys, MintBound(callback.message) + room, w);
      var _, _, _ := ContractHost.ExecuteOn(store, config, callback.contract, callback.message, OBSERVER_GAS);
      if good {
        CallbackHealthy(callback, room, w);
        forall h | h in mempool
          ensures Pooled(h, mempool[h])
        {
          assert Spares(mempool[h].from, 0, w, store.Settled());
        }
      }
    }

    lemma CallbackHealthy(callback: Callback, room: nat, w: World)
      requires Healthy(config, keys, MintBound(callback.message) + room, w) && Harmless(callback)
      ensures var after := RunCallback(config, callback, w);
        Healthy(config, keys, room, after) && forall k :: k in keys ==> Spares(k, 0, w, after)
    {
      var gas := OBSERVER_GAS - CONTRACT_EXECUTION_COST;
      MessageFunds(config, {}, callback.contract, callback.message, gas, w, false);
      var r := Snapshot.Execute(config, callback.contract, callback.message, OBSERVER_GAS, w);
      forall k | k in keys
        ensures Spares(k, 0, w, Snapshot.Settle(r.world))
      {
        MessageSpares(config, {}, callback.contract, callback.message, gas, w, false, k);
      }
    }

    /** No debit of the block wraps around, and the callbacks behind it are harmless. */
    ghost predicate Steady(block: Block, behaviours: seq<Behaviour>, callbacks: seq<Callback>, w: World)
      requires |behaviours| == |block.txs|
      reads this
    {
      && AllProtected(config, block.txs)
      && Healthy(config, keys, CallbackMints(callbacks, 0) + MintsFrom(block.txs, behaviours, 0), w)
      && forall i :: 0 <= i < |callbacks| ==> Harmless(callbacks[i])
    }

    /** A block that validates is processed to the end, without any balance or nonce check failing,
        if and only if no two of its transactions have the same sender. */
    method TryProcessNextBlock(
      block: Block, rdposValid: bool, behaviours: seq<Behaviour>, callbacks: seq<Callback>)
      returns (status: BlockStatus, completed: bool, ghost done: nat)
      requires Inv() && Admissible(block, behaviours)
      requires Healthy(config, keys, MintsFrom(block.txs, behaviours, 0), store.Settled())
      modifies this, store
      ensures status.Valid? <==> block.height == old(latest.height) + 1 && old(Acceptance(block, rdposValid))
      ensures !status.Valid? ==> !completed && unchanged(this) && unchanged(store)
      ensures status.Valid? ==> (completed <==> DistinctSenders(block.txs))
      ensures status.Valid? && !completed ==>
        unchanged(this) && Stopped(config, block.txs, behaviours, old(store.Settled()), false, done, store.Settled())
      ensures completed ==> latest == block && (old(Steady(block, behaviours, callbacks, store.Settled())) ==> Inv())
      ensures completed ==>
        var w := ProcessFirst(block.txs, behaviours, config, old(store.Settled()), |block.txs|);
        && w.Some?
        && store.Settled() == RunCallbacks(config, callbacks, w.value, |callbacks|)
        && mempool == map h | h in old(mempool) && Survives(block, old(mempool)[h], w.value) :: old(mempool)[h]
    {
      status := ValidateNextBlock(block, rdposValid);
      if !status.Valid? {
        return status, false, 0;
      }
      AllReady(block, rdposValid, behaviours);
      ghost var steady := Steady(block, behaviours, callbacks, store.Settled());
      completed, done := ProcessAll(block.txs, behaviours, if steady then CallbackMints(callbacks, 0) else 0);
      if completed {
        BlockSane(block.txs, behaviours, config, old(store.Settled()), |block.txs|);
        FinishNextBlock(block, callbacks);
      }
    }

    /** What follows the transactions of a block. */
    method FinishNextBlock(block: Block, callbacks: seq<Callback>)
      requires config.restore.Popped? && Sane(config, store.Settled())
      requires forall h :: h in mempool ==>
        mempool[h].hash == h && mempool[h].from in keys && mempool[h].from in store.accounts
      modifies this, store
      ensures latest == block
      ensures old(HarmlessAll(callbacks, store.Settled())) ==> Inv()
      ensures store.Settled() == RunCallbacks(config, callbacks, old(store.Settled()), |callbacks|)
      ensures mempool == map h | h in old(mempool) && Survives(block, old(mempool)[h], old(store.Settled())) :: old(mempool)[h]
    {
      RefreshMempool(block);
      NotifyObservers(callbacks);
      latest := block;
    }

    /** What validation found valid, or had found valid before, is ready. */
    lemma AllReady(block: Block, rdposValid: bool, behaviours: seq<Behaviour>)
      requires Inv() && Admissible(block, behaviours) && Acceptance(block, rdposValid)
      ensures forall i :: 0 <= i < |block.txs| ==> Ready(block.txs[i], store.Settled())
    {
      forall i | 0 <= i < |block.txs|
        ensures Ready(block.txs[i], store.Settled())
      {
        ValidNewIsReady(block.txs[i]);
        assert Acceptable(config, keys, block.txs[i], behaviours[i]);
        assert block.txs[i].hash in mempool ==> Pooled(block.txs[i].hash, mempool[block.txs[i].hash]);
      }
    }
  }
}
