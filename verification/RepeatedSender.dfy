/** A block that is validated and then not processed to the end. */
module RepeatedSender {
  import opened Base
  import opened WorldState
  import opened Messages
  import opened ExecutionContext
  import opened Balances
  import opened MessageLaws
  import opened Transactions
  import opened BlockLaws
  import opened NodeState
  import opened WorldInvariant

  const CONFIG := Config({}, 1, Popped)
  const SENDER: Address := 5
  const RECIPIENT: Address := 6
  const BALANCE: nat := 1_000_000
  const ACCOUNTS: Ledger := map[SENDER := Account(BALANCE, 0, 0, None, NotAContract)]
  const START := World(ACCOUNTS, map[], map[], map[], [], [])

  const GENESIS := Block(0, 0, 0, 0, [])

  /** Two transactions of one sender with the same nonce. */
  function Twin(hash: Hash): Tx {
    Tx(hash, SENDER, RECIPIENT, 0, 0, 21_000, 1, true)
  }

  const BLOCK := Block(10, GENESIS.hash, 1, 0, [Twin(1), Twin(2)])

  const NOTHING := Behaviour(7, 0, [], Halt(Success, 0), Done(Halt(Success, 0)))

  lemma StartHealthy()
    ensures Canonical(ACCOUNTS) == ACCOUNTS && Sane(CONFIG, START) && Healthy(CONFIG, {SENDER}, 0, START)
  {
    SumTakeOut(ACCOUNTS.Keys, ACCOUNTS, SENDER);
    assert ACCOUNTS.Keys - {SENDER} == {};
    FundsOfAll(START);
  }

  lemma TwinsAcceptable(hash: Hash)
    ensures Acceptable(CONFIG, {SENDER}, Twin(hash), NOTHING) && Mints(Twin(hash), NOTHING) == 0
    ensures Ready(Twin(hash), START) && Fits(Twin(hash))
  {
    var m := ToMessage(Twin(hash), NOTHING);
    assert m == CallMessage(Call, true, RECIPIENT, RECIPIENT, 0, true, 0, Halt(Success, 0), Done(Halt(Success, 0)));
    assert AvoidsScript(m.body, SENDER) && MintBoundScript(m.body) == 0;
  }

  /** Each transaction alone is valid, so the block is. The second is not ready once the first has counted
      the nonce: processing stops, the first has been paid for, and the block is not the latest. */
  method ValidButStuck() returns (state: State, status: BlockStatus, completed: bool)
    ensures fresh(state) && status.Valid? && !completed && state.latest == GENESIS
    ensures AccountOf(state.store.Settled(), SENDER).nonce == 1
  {
    StartHealthy();
    TwinsAcceptable(1);
    TwinsAcceptable(2);
    var store := new Store(ACCOUNTS, map[], map[], map[]);
    state := new State(CONFIG, store, GENESIS, {SENDER});
    var behaviours := [NOTHING, NOTHING];
    assert store.Settled() == START;
    NothingMinted(behaviours);
    forall i | 0 <= i < |BLOCK.txs|
      ensures IsTxStatusValid(state.ValidateTransaction(BLOCK.txs[i]))
    {
      state.ValidNewIsReady(BLOCK.txs[i]);
    }
    assert !DistinctSenders(BLOCK.txs) by {
      assert BLOCK.txs[0].from == BLOCK.txs[1].from;
    }
    ghost var done;
    status, completed, done := state.TryProcessNextBlock(BLOCK, true, behaviours, []);
    FirstCounted(behaviours, done, store.Settled());
  }

  lemma NothingMinted(behaviours: seq<Behaviour>)
    requires behaviours == [NOTHING, NOTHING]
    ensures MintsFrom(BLOCK.txs, behaviours, 0) == 0
  {
    TwinsAcceptable(1);
    TwinsAcceptable(2);
    assert MintsFrom(BLOCK.txs, behaviours, 2) == 0;
    assert MintsFrom(BLOCK.txs, behaviours, 1) == 0;
  }

  lemma FirstCounted(behaviours: seq<Behaviour>, done: nat, after: World)
    requires behaviours == [NOTHING, NOTHING] && Repeats(BLOCK.txs, done)
    requires ProcessFirst(BLOCK.txs, behaviours, CONFIG, START, done) == Some(after)
    ensures AccountOf(after, SENDER).nonce == 1
  {
    TwinsAcceptable(1);
    assert done == 1;
    assert ProcessFirst(BLOCK.txs, behaviours, CONFIG, START, 0) == Some(START);
    assert after == Process(Twin(1), NOTHING, CONFIG, START).value.world;
    ProcessCountsNonce(Twin(1), NOTHING, CONFIG, START);
  }
}
