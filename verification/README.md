# Verified model of bdk-cpp

A Dafny model of the parts of the AppLayer blockchain development kit in which most can go wrong,
with proofs of what they are for.

- **Execution.** `WorldState` is what a node knows: accounts, contracts, storage, shared EVM code,
  events. `Messages` are calls and creations, `Script`s the behaviour of the code they reach: a finite
  tree of storage writes, events, registrations and nested messages that branches on how a nested
  message ended. `Snapshot` says what a message means: its world is put back on failure, either from a
  copy, or as popping the journal puts it back, which loses a C++ contract at the address of an EVM
  creation that completed. `ExecutionContext`, `MessageDispatcher` and `ContractHost` are the classes
  of the node: they keep one journal and pop it. Their methods are proved to have exactly the popped
  effect for every message tree, and `Restoring` proves when that is the effect of copies. `Effects`
  tells what messages do in plain terms: outcome, gas, and every field of the world before and after.
  Worlds are compared without accounts that hold nothing, since reading an account may create one.
- **What every run keeps.** `MessageLaws` (conservation of the native balance, accounts that are not
  contracts are spared), `WorldInvariant` (the shared code table), `Transactions` and `BlockLaws` (fees,
  nonces, why a validated block can be processed), `Payments` (what a transaction does to the accounts,
  in numbers), `NodeState` (the mempool and block processing, with
  `RepeatedSender` as the block that is not processed to the end). `Node` puts state, consensus and
  block store together; `Consensus` is the producer of blocks.
- **Consensus.** `RandomGen`, `ValidatorPool`, `RdPoS`, `ValidatorBlock` and `Restart`: the leader
  schedule, the pool of a round, validation. `AcceptedBlock`: from the bytes of a block to its
  acceptance, with the views that consensus, state and store have of one block.
- **ABI.** `AbiTypes`, `AbiCodec` (the codec as functions), `AbiWire` (the format by byte positions),
  `AbiRoundTrip` (what survives it), `AbiLoss` (what does not, and exactly when), `AbiCoder` (the
  encoder and decoder as they run), `TypeStrings` (type names and the parser of the JSON interface),
  `TypeNames` (which types the encoder prints alike).
- **Stored data.** `BigEndian`, `Merkle`, `BlockCodec`, `BlockFields` (blocks byte by byte), `TxProofs` (proofs against the root in a block),
  `OrderedDb`, `Storage`, `MisplacedBlock` (a block that a restarted node does not find).
- **Observers.** `Observers`: the queues of periodic callbacks.

Hash functions, the encoding of a single transaction, contract addresses and the bytes a contract
returns are parameters. Thrown exceptions are values (`Outcome`, `Option`, `Short`, a `bool`). Unsigned
machine integers wrap around where the source's do (`Wrap32`, `Wrap64`, `Wrap256`).

## Where the code does not do what one would expect

Each of these is modelled as the code has it, and the exact condition under which the expected
property holds is proved.

- The check that a sender can pay computes value plus gas budget modulo 2^256. It protects the debit
  if and only if the sum fits, or the run cannot use more gas than the wrapped sum pays: a transaction
  to oneself, or one that stops before any code runs (`Transactions.AlwaysPaysIff`).
- A validated block can still make processing throw, because validation looks at every transaction
  alone: it completes if and only if no sender occurs twice (`NodeState.State.TryProcessNextBlock`).
  `RepeatedSender.ValidButStuck` is such a block; what was processed before it stops is not taken back.
- Announcing an EVM contract journals the removal of a C++ contract that was never added. Undoing it
  is exact if and only if no C++ contract lives at the address
  (`ExecutionContext.EvmAnnouncementUndone`), and a failing message is put back exactly if and only if
  none of its completed EVM creations is at the address of a C++ contract that was there before
  (`Restoring.FailureExactIff`). Such a contract can be there: addresses of both kinds are computed
  from creator and nonce, and an encoded call to the contract manager does not count the nonce.
  `Restoring.ContractLost` is a message tree that succeeds and loses a contract it made.
- The offset of a dynamic argument counts one word for each field of a static tuple next to it. It
  points at its data if and only if those fields are single words
  (`AbiRoundTrip.OffsetsPointAtTails`), and then, and only then, all values survive
  (`AbiLoss.SurvivesIff`). Next to a tuple of dynamic data a wrong offset can lead to the right place
  (`AbiLoss.LuckyTuple`), which is why the condition asks for another first dynamic component.
- Arrays of a fixed size are printed like vectors, so argument lists share a signature if and only if
  they agree up to that (`TypeNames.SignaturesIff`).
- A Merkle proof for a leaf without a sibling on some layer reads past the layer. All leaves have a
  proof if and only if their number is a power of two (`Merkle.AllProvableIff`).
- Looking for the last key with a prefix finds nothing if the counted-up prefix, or a beginning of it
  that cuts off zeros that went over, is a key itself (`OrderedDb.GetLastByPrefix`).
- The type-string parser is right if and only if no tuple is empty and no comma stands at a depth at
  which its 16-bit count of parentheses is 0 again (`TypeStrings.DescribedIff`).
- A due observer whose next deadline wraps around, or whose step is 0, is due again at once, and the
  loop never ends. It ends if and only if every due observer's next deadline fits
  (`Observers.EndsExactly`).
- Storing a block checks its predecessor only. Readers get the longer chain if and only if the block
  has the next height, carries the fields that belong to its transactions and has a hash of its own
  (`Storage.Chain.AnswersIff`). `MisplacedBlock.LoseTip` is a block that is accepted and becomes the
  latest, after which a restarted node has another one.

## Model

| member | source | states |
|---|---|---|
| `Snapshot.OnMessage` | src/contract/messagedispatcher.h:18-32 | a message that fails mints nothing and leaves the world untouched, or, where the journal is popped, untouched but for the C++ contracts its EVM creations erased; gas never grows; if a C++ call threw at any depth below, or earlier, the message fails, even where an EVM frame swallowed the error |
| `Snapshot.Dispatch` | src/contract/messagedispatcher.h:34-63 | gas never grows and a C++ failure anywhere below raises the sticky flag, for calls and both kinds of creation |
| `Snapshot.DispatchCall` | src/contract/messagedispatcher.h:49-101 | the same for a call once funds are moved, whichever executor it goes to; what each kind of target answers, costs and changes is stated by the rows of `Effects` |
| `Snapshot.RunScript` | src/contract/evmcontractexecutor.cpp:374-400 | the same for everything contract code does, including nested messages whose failure EVM code survives; what each step changes is stated by `Effects.StoreStep`, `Effects.EmitStep`, `Effects.AddContractStep`, `Effects.EvmNestedStep` and `Effects.CppNestedStep` |
| `Snapshot.Execute` | src/contract/contracthost.h:84-96 | a whole execution never returns more gas than it was given, and one that fails leaves the world as it was, but for erased C++ contracts |
| `Effects.Payment` | src/contract/messagedispatcher.h:42-69 | an encoded call without input to an address that has no code and is not precompiled succeeds for 21000 gas, moves the value from the caller to that address, also if they are one, and keeps every other account, storage, contracts, code and events |
| `Effects.NoCodeToCall` | src/contract/messagedispatcher.h:65-88 | any other call to an address without code, one with input or a packed one, of any kind and value, fails for 21000 gas and changes nothing |
| `Effects.EmptyCall` | src/contract/messagedispatcher.h:65-69 | a call without value and input, also a delegate call, to an address without code succeeds and changes nothing |
| `Effects.Unaffordable` | src/contract/executioncontext.cpp:105-115 | a call whose value exceeds the caller's balance fails before anything else and changes nothing |
| `Effects.BaseCost` | src/contract/contracthost.h:84-96 | below 21000 gas an execution is out of gas and changes nothing; from there on it is its message with 21000 less |
| `Effects.PrecompiledCall` | src/contract/precompiledcontractexecutor.h:16-36 | a precompiled contract costs 1000, refuses delegate calls, answers by itself and leaves the world alone |
| `Effects.FundsFirst` | src/contract/messagedispatcher.h:42-63 | whatever is called, the code sees the world in which the value has moved: the call is the call without value in that world |
| `Effects.EvmDone` | src/contract/evmcontractexecutor.cpp:84-135 | EVM code that ends has the outcome and at most the gas that it reports |
| `Effects.CppDone` | src/contract/cppcontractexecutor.h:39-97 | C++ code that ends costs 1000, or 50000 for an encoded call of the contract manager, and a failure raises the flag |
| `Effects.CppNotRun` | src/contract/cppcontractexecutor.h:39-97 | a delegate call, too little gas or an address without contract keeps C++ code from running, with the gas and outcome of each, and raises the flag |
| `Effects.StoreStep` | src/contract/executioncontext.cpp:117-120 | for code of any length: storing data in a slot and going on is going on where that slot of the running contract holds the data |
| `Effects.EmitStep` | src/contract/executioncontext.cpp:3-11 | emitting and going on is going on behind one more event, numbered by its place, of the running contract |
| `Effects.TouchStep` | src/contract/executioncontext.cpp:13-15 | looking at an account and going on is going on |
| `Effects.AddContractStep` | src/contract/executioncontext.cpp:73-103 | registering a C++ contract fails at a taken address, and otherwise goes on where it is kept and announced and its account has nonce 1 and the C++ kind |
| `Effects.EvmNestedStep` | src/contract/evmcontractexecutor.cpp:370-419 | what EVM code does after a message it sends is the branch for how the message ended, in the world it left, with the gas of the frame untouched; a C++ failure below fails it all |
| `Effects.CppNestedStep` | src/contract/contracthost.h:109-147 | the same for C++ code, with the one gas counter |
| `Effects.StoresSlot` | src/contract/evmcontractexecutor.cpp:154-188 | a call of EVM code that stores one slot succeeds with that slot of the called contract, or of the caller for a delegate call, holding the data and everything else as before |
| `Effects.EmitsEvent` | src/contract/evmcontractexecutor.cpp:154-188 | the same for one event: emitter and payload of the new last event |
| `Effects.EvmCreation` | src/contract/evmcontractexecutor.cpp:137-214 | creating an EVM contract costs 100000; its account gets the value, nonce 1, the code kept for its hash and the EVM kind, it is announced, a creator that is a contract counts it unless it is salted, and nothing else changes |
| `Effects.InitStores` | src/contract/evmcontractexecutor.cpp:137-139 | init code stores into the contract that is being created |
| `Effects.InitFails` | src/contract/evmcontractexecutor.cpp:137-139 | init code that fails leaves no contract |
| `Effects.CppCreation` | src/contract/cppcontractexecutor.h:118-199 | creating a C++ contract costs 50000 and a creator that is a contract counts it |
| `Effects.NoCreation` | src/contract/evmcontractexecutor.cpp:190-214 | a creation without the gas, or without a contract manager, does not start |
| `Journal.RollbackSplits` | src/contract/executioncontext.cpp:205-213 | undoing to a lower checkpoint is undoing to a higher one first and then the rest |
| `Journal.GrewTransitive` | src/contract/executioncontext.cpp:198-213 | a journal that undoes a second stretch and then a first one undoes both together |
| `Journal.RollbackWithout` | src/contract/executioncontext.cpp:198-213 | popping entries commutes with losing C++ contracts, for every journal |
| `Journal.GrewLosing` | src/contract/executioncontext.cpp:198-213 | two stretches that each undo all but some contracts together undo all but the contracts of both |
| `Journal.SetAccountUndone` | src/utils/transactional.h:109-111 | writing an account and putting the old one back is no change, also when the account did not exist |
| `ExecutionContext.RegisterContractUndone` | src/contract/executioncontext.cpp:73-103 | the five journal entries of registering a C++ contract undo it exactly, provided the address was free |
| `ExecutionContext.EvmAnnouncementUndone` | src/contract/executioncontext.cpp:91-103 | the entries of announcing an EVM contract undo it if and only if no C++ contract is stored at its address |
| `ExecutionContext.Context.GetAccount` | src/contract/executioncontext.cpp:13-15 | reading an account yields the default for an unknown address and does not change the observable world |
| `ExecutionContext.Context.SetBalance` | src/contract/executioncontext.cpp:176-179 | the world changes in that balance only, and popping the new journal entries restores the old world |
| `ExecutionContext.Context.SetNonce` | src/contract/executioncontext.cpp:181-184 | the same for a nonce |
| `ExecutionContext.Context.SetCode` | src/contract/executioncontext.cpp:186-191 | the same for code and code hash, written with two entries |
| `ExecutionContext.Context.SetContractType` | src/contract/executioncontext.cpp:193-196 | the same for the kind of an account |
| `ExecutionContext.Context.TransferBalance` | src/contract/executioncontext.cpp:105-115 | refuses an amount above the balance without changing anything; otherwise moves it, also when sender and recipient are one account, and the entries undo it |
| `ExecutionContext.Context.StoreSlot` | src/contract/executioncontext.cpp:117-120 | writes one storage slot, undone by one entry whether or not the slot existed |
| `ExecutionContext.Context.AddEvent` | src/contract/executioncontext.cpp:3-10 | appends an event numbered by its place, undone by removing the last |
| `ExecutionContext.Context.CheckEvmContract` | src/contract/executioncontext.cpp:45-57 | code is stored once per code hash; the code already stored is the one returned; only the first deployer journals its removal |
| `ExecutionContext.Context.NotifyNewContract` | src/contract/executioncontext.cpp:91-103 | lists the contract and journals both removals |
| `ExecutionContext.Context.AddContract` | src/contract/executioncontext.cpp:73-89 | refuses an address that is taken, otherwise registers the contract, and the entries undo it |
| `ExecutionContext.Context.RevertTo` | src/contract/executioncontext.cpp:205-213 | popping to a height is the rollback to that height |
| `ExecutionContext.Context.Commit` | src/contract/executioncontext.cpp:127-135 | keeps the world, empties journal, events and list of new contracts |
| `ExecutionContext.Context.Revert` | src/contract/executioncontext.cpp:137-144 | rolls everything back and empties journal, events and list of new contracts |
| `MessageDispatcher.Dispatcher.OnMessage` | src/contract/messagedispatcher.h:18-32 | for every message tree, without exception, the journaled engine ends in exactly the outcome, gas, flag and world of the semantics; its new journal entries undo the message but for the contracts it erased |
| `MessageDispatcher.Dispatcher.Dispatch` | src/contract/messagedispatcher.h:34-48 | the same before the checkpoint is decided |
| `MessageDispatcher.Dispatcher.TransferAndCall` | src/contract/messagedispatcher.h:42-52 | the same for a call: funds move first, a delegate call moves none |
| `MessageDispatcher.Dispatcher.DispatchCall` | src/contract/messagedispatcher.h:49-101 | the same for the choice between precompiled, C++, EVM and no contract; a C++ failure sets the sticky flag |
| `MessageDispatcher.Dispatcher.DispatchCppCall` | src/contract/messagedispatcher.h:90-97 | the same for a C++ call, whose failure sets the sticky flag before it is passed on |
| `MessageDispatcher.Dispatcher.CallCpp` | src/contract/cppcontractexecutor.h:39-116 | the same for a C++ contract: its cost, the lookup, the call |
| `MessageDispatcher.Dispatcher.CreateEvm` | src/contract/evmcontractexecutor.cpp:190-214 | the same for creating an EVM contract |
| `MessageDispatcher.Dispatcher.FinishCreate` | src/contract/evmcontractexecutor.cpp:137-152 | the same for writing the new contract and counting the creator's nonce if it is a contract |
| `MessageDispatcher.Dispatcher.CreateCpp` | src/contract/cppcontractexecutor.h:118-199 | the same for creating a C++ contract through the contract manager |
| `MessageDispatcher.Dispatcher.RunScript` | src/contract/evmcontractexecutor.cpp:370-419 | the same for code that catches, or does not catch, the failure of nested messages |
| `ContractHost.Host.Execute` | src/contract/contracthost.h:84-96 | runs as the snapshot semantics says and will revert if and only if the message failed |
| `ContractHost.Host.Simulate` | src/contract/contracthost.h:78-82 | runs the same way and will always revert |
| `ContractHost.Host.Destroy` | src/contract/contracthost.cpp:16-43 | reverting rolls the whole journal back and emits nothing; committing keeps the world and emits the events |
| `ContractHost.ExecuteOn` | src/core/state.cpp:332-372 | from context to destructor: the node's maps change as the semantics says; a failed execution leaves them as they were but for erased C++ contracts; an intact run ends as if the world had been copied; the code table invariant is kept |
| `ContractHost.SimulateOn` | src/contract/contracthost.h:78-82 | a simulation reports the outcome and gas of the execution and leaves no trace if and only if its completed EVM creations are not at the addresses of C++ contracts |
| `Restoring.MessageSame` | src/contract/messagedispatcher.h:18-32 | popping the journal refines copying the world: for every message tree both give the same outcome, gas, flag and world as soon as, along the run, no failing message had completed an EVM creation where a C++ contract lived when it started |
| `Restoring.ExecuteSame` | src/contract/contracthost.h:84-96 | the same for a whole execution |
| `Restoring.FailureExactIff` | src/contract/executioncontext.cpp:91-103 | a failing message leaves its world untouched if and only if the addresses of its completed EVM creations hold no C++ contract of that world |
| `Restoring.PlacedIntact` | src/contract/messagedispatcher.h:18-63 | a condition on the message alone that suffices: some set of addresses holds all C++ creations and no EVM creation |
| `Restoring.ContractLost` | src/contract/cppcontractexecutor.h:63-97 | a message tree that succeeds both ways: with copies the C++ contract made in it is there at the end, with the journal it is gone; making it did not count the creator's nonce |
| `Balances.TotalTransfer` | src/contract/executioncontext.cpp:105-115 | a transfer keeps the sum of all balances, self-transfers included |
| `Balances.TotalDeploy` | src/contract/evmcontractexecutor.cpp:137-152 | deploying raises the sum by exactly the value, for which nobody is debited |
| `MessageLaws.MessageConserves` | src/contract/messagedispatcher.h:18-32 | for every message tree the sum of all balances grows by exactly what surviving creations minted, which is bounded by the values they carry: zero if they carry none |
| `MessageLaws.MessageFunds` | src/contract/messagedispatcher.h:18-32 | however much some plain accounts hold, the balances of all others together grow by no more than what was minted |
| `MessageLaws.ScriptFunds` | src/contract/evmcontractexecutor.cpp:374-400 | the same for contract code, with nested failures caught at any level, and counted outside of any set of rich plain accounts |
| `MessageLaws.MessageStays` | src/contract/messagedispatcher.h:18-63 | no message changes nonce or kind of an account that is not a contract, whatever balances wrap around |
| `MessageLaws.MessageSpares` | src/contract/messagedispatcher.h:18-63 | no message lowers the balance of an account that is not a contract, except that its caller pays the value sent; it is enough that the balances outside of some rich accounts fit in 256 bits |
| `MessageLaws.TransferSpares` | src/contract/executioncontext.cpp:105-115 | the same for a transfer, with sender and recipient possibly equal |
| `WorldInvariant.MessageSane` | src/contract/executioncontext.cpp:45-57 | after every message, committed or reverted, each EVM account's code is the shared entry for its code hash, events are numbered by place and, where the world is copied, each C++ account is registered |
| `WorldInvariant.ScriptSane` | src/contract/evmcontractexecutor.cpp:374-400 | the same at every point inside a run |
| `WorldInvariant.ExecuteSane` | src/contract/contracthost.h:84-96 | the same after a whole execution |
| `WorldInvariant.ShareCodeSane` | src/contract/executioncontext.cpp:45-57 | sharing code never replaces what another contract runs |
| `Transactions.SenderPays` | src/core/state.cpp:316-381 | after the run the sender can still pay for the gas used, so the debit does not wrap around |
| `Transactions.TotalDropsByFee` | src/core/state.cpp:316-381 | successful or failed, a transaction whose sender can pay lowers the sum of all balances by exactly gas used times fee, up to what its creations minted |
| `Transactions.ProcessFunds` | src/core/state.cpp:374-381 | a debit that wraps around is felt by the sender only |
| `Transactions.ProcessSparesOthers` | src/core/state.cpp:307-382 | a transaction leaves every other plain account its nonce and at least its balance |
| `Transactions.ProcessCountsNonce` | src/core/state.cpp:374-381 | the sender's nonce counts the transaction once, whatever the run did |
| `Transactions.AlwaysPaysIff` | src/core/state.cpp:316-320 | in all worlds and for all code a checked sender can pay, if and only if value plus gas budget fits in 256 bits, or the little gas the transaction can use is covered by the wrapped sum, or no world can run it; the last is decided exactly |
| `Transactions.ProtectedPays` | src/core/state.cpp:316-381 | under that condition the debit does not wrap around |
| `Transactions.Overrun` | src/core/state.cpp:316-381 | for every transaction that some world can run, code and a world that satisfies the code table invariant in which the check passes, and in which the sender cannot pay unless the transaction is protected |
| `Payments.RefusedIff` | src/core/state.cpp:316-327 | a transaction whose full budget fits in 256 bits is refused exactly if the sender holds less than value plus gas limit times fee, or the nonce is not the sender's |
| `Payments.PaymentTx` | src/core/state.cpp:307-382 | a transaction without data to a plain account uses 21000 gas: the recipient has the value more, the sender the value and 21000 fees less and a nonce one higher, and nothing else changes |
| `Payments.DataTx` | src/core/state.cpp:307-382 | with data it fails: the recipient gets nothing and the sender pays the fee all the same |
| `Payments.CreationTx` | src/core/state.cpp:307-382 | a transaction to the zero address makes the contract with the value, and its sender, who is no contract, pays the gas that is not left and is counted one nonce |
| `BlockLaws.ProcessHealthy` | src/core/state.cpp:307-382 | a transaction keeps senders plain and balances within 256 bits, but for its own sender if its debit wraps around, and every other sender as ready as it was |
| `BlockLaws.Advance` | src/core/state.cpp:508-513 | one step of the argument that transactions of a block do not spoil each other: senders still to come stay ready, those done have moved on |
| `BlockLaws.BlockDropsByFees` | src/core/state.cpp:508-513 | a block of protected transactions lowers the sum of all balances by exactly their fees, up to what they minted |
| `BlockLaws.BlockSane` | src/core/state.cpp:508-513 | a block keeps the code table invariant |
| `NodeState.State.ValidNewIsReady` | src/core/state.cpp:267-305 | validation answers new exactly for a transaction outside the mempool whose existing sender can pay and has the right nonce |
| `NodeState.State.AddTx` | src/core/state.cpp:538-546 | adds exactly valid new transactions and keeps the invariant: every pooled transaction is valid against the current accounts, the code table is sound |
| `NodeState.State.ValidateNextBlock` | src/core/state.cpp:432-478 | wrong height exactly if the height is not the next; valid exactly if also predecessor, timestamp, consensus verdict and every transaction are in order |
| `NodeState.State.ProcessTransaction` | src/core/state.cpp:307-382 | throws exactly if the sender is not ready; otherwise the accounts change as the transaction law says |
| `NodeState.State.ProcessAll` | src/core/state.cpp:508-513 | transactions that were ready together are processed to the end if and only if no sender repeats, also if debits wrap around; otherwise the loop stops at the first sender that repeats, and what was done before stays; the result is that of running them one after the other |
| `NodeState.State.RefreshMempool` | src/core/state.cpp:384-406 | keeps exactly the pooled transactions that are not in the block and whose sender is ready now |
| `NodeState.State.NotifyObservers` | src/contract/blockobservers.cpp:42-81 | callbacks run in order on the world; those that keep away from keys cannot make a pooled transaction invalid |
| `NodeState.State.TryProcessNextBlock` | src/core/state.cpp:492-531 | a refused block changes nothing; a valid one completes if and only if its senders are pairwise distinct, although pooled transactions skip validation and debits may wrap around; then world and mempool are the expected ones, and every pooled transaction is valid again if no debit wrapped; otherwise it has stopped at the first sender that repeats |
| `RepeatedSender.ValidButStuck` | src/core/state.cpp:492-531 | a block with two transactions of one sender that validation accepts: processing stops at the second, the first has counted the nonce, and the block is not the latest |
| `Node.FullNode.constructor` | src/core/state.cpp:18-51 | a new chain starts with state, consensus and store at the genesis block |
| `Node.FullNode.AcceptedIff` | src/core/state.cpp:442-478 | which blocks a node accepts, told by their fields: next height, hash of the latest header as predecessor, no earlier timestamp, signed by the validator that the hash of the latest randomness points at, a commitment and its opening of each validator after the leader, and every transaction pooled already or affordable with the next nonce |
| `Node.FullNode.TryProcessNextBlock` | src/core/state.cpp:492-531 | one block for all parts: it is valid exactly if it is such a block, which is when consensus and state accept it; it completes exactly if its senders are distinct; then consensus and store have moved to it, storing does not fail after processing, and all parts stand at the same block again |
| `Consensus.BestPerSender` | src/core/consensus.cpp:386-397 | one transaction for each sender, with the highest fee among that sender's |
| `Consensus.Flatten` | src/core/consensus.cpp:398-402 | the map's transactions as a list, senders pairwise distinct |
| `Consensus.ChooseTxs` | src/core/consensus.cpp:382-402 | of every pool: only pooled transactions, senders pairwise distinct, and for every pooled transaction one of its sender with at least its fee |
| `Consensus.Propose` | src/core/consensus.cpp:345-416 | from any mempool and a complete pool of validator transactions the leader makes a block that consensus and state accept, with derived fields that belong to it |
| `Consensus.FinishRound` | src/core/consensus.cpp:345-379 | a complete pool yields validator transactions that the consensus accepts for the next height |
| `Consensus.CreatedIsFormed` | src/utils/finalizedblock.cpp:158-180 | a block created and signed by the leader has the roots and randomness of its transactions and is one that the consensus accepts |
| `Consensus.ProduceBlock` | src/core/consensus.cpp:345-426 | a round from both mempools to the next state: one block is accepted by consensus and state, processed to the end and stored; all parts stand at it; it holds only pooled transactions and the best of every pooled sender |
| `RandomGen.ShufflePermutes` | src/utils/randomgen.h:59-67 | a shuffle is a permutation for every hash function and seed |
| `RandomGen.ShuffledIff` | src/utils/randomgen.h:59-67 | a list is the shuffle exactly if it is reached from the given one in one step for each position: step i exchanges positions i and i plus the (i+1)-fold hash of the seed modulo what is left |
| `RandomGen.FirstOfShuffle` | src/utils/randomgen.h:59-67 | the first element is the one whose position is the hash of the seed modulo the length |
| `RandomGen.AnyCanBeFirst` | src/utils/randomgen.h:59-67 | every element comes first for every seed whose hash is congruent to its position |
| `RandomGen.Shuffle` | src/utils/randomgen.h:59-67 | the loop in place never swaps out of range, computes that permutation through exactly those steps, puts first the element that the hash of the seed points at, and returns the seed hashed as often as there are elements |
| `ValidatorPool.PoolBound` | src/core/rdpos.cpp:216-239 | two entries for each participant bound the pool |
| `ValidatorPool.FullPool` | src/core/consensus.cpp:315-322 | a full pool has two entries of every participant |
| `ValidatorPool.OneOfEach` | src/core/consensus.cpp:345-370 | in a full pool of recognised transactions every participant has one commitment and one seed |
| `RdPoS.SortedUnique` | src/core/rdpos.cpp:28-40 | an ordered set has one listing, whatever order it was read in |
| `RdPoS.ParseTxSeedList` | src/core/rdpos.cpp:241-251 | 32 zero bytes for no transactions, otherwise the hash of bytes that are, 32 by 32, the data behind the functor of exactly the transactions of 36 bytes with the seed functor, in their order |
| `RdPoS.SeedsInRow` | src/core/rdpos.cpp:241-251 | the hashed bytes are those of the seeds, all of them and nothing else, each in its place |
| `RdPoS.ConcatBytes` | src/core/rdpos.cpp:241-251 | n parts of 32 bytes make 32 n bytes, and byte 32 i + j is byte j of part i |
| `RdPoS.WellOrderedIff` | src/core/rdpos.cpp:53-120 | what validation demands, byte by byte: for each validator after the leader, in schedule order, a transaction of 36 bytes with the commitment functor and n places later one with the seed functor, both of that validator and for that height, the seed hashing to the commitment, and all commitments different |
| `RdPoS.SanityCheck` | src/core/rdpos.cpp:122-178 | accepts exactly a commitment and the 32-byte seed it commits to, of one sender |
| `RdPoS.RandomnessOfAccepted` | src/core/rdpos.cpp:91-120 | validator transactions that validation accepts reveal exactly minValidators 32-byte seeds in schedule order, each the preimage of the same validator's commitment; the randomness is the hash of bytes s with s[32i..32i+32] the data behind the functor of transaction i + n |
| `RdPoS.PairUpSize` | src/core/rdpos.cpp:91-113 | the map of pairs keeps all of them exactly if commitments have different hashes |
| `RdPoS.PairsCovered` | src/core/rdpos.cpp:115-118 | checking the map's pairs is checking the block's pairs |
| `RdPoS.CollectPairs` | src/core/rdpos.cpp:91-108 | accepts exactly if both transactions in every slot are of the validator scheduled there |
| `RdPoS.Consensus.constructor` | src/core/rdpos.cpp:28-46 | from stored validators in any order the schedule is their shuffle by the latest randomness, the pool is empty, and the invariant holds as soon as there are more than minValidators |
| `RdPoS.Consensus.SchedulePermutes` | src/core/rdpos.cpp:42-46 | the schedule lists every validator exactly once |
| `RdPoS.Consensus.LeaderIsDrawn` | src/core/rdpos.cpp:180-187 | in every state the leader is the validator whose place in the ordered set is the hash of the latest randomness modulo the number of validators |
| `RdPoS.Consensus.ProcessBlock` | src/core/rdpos.cpp:180-187 | clears the pool, reshuffles by the block's randomness and moves the height in one step, keeping the invariant |
| `RdPoS.Consensus.AddValidatorTx` | src/core/rdpos.cpp:189-239 | adds exactly a participant's transaction for the next height with a function not yet pooled for it, and keeps the invariant of the pool |
| `RdPoS.Consensus.Participates` | src/core/rdpos.cpp:203-214 | finds exactly the validators scheduled behind the leader |
| `RdPoS.Consensus.IsRedundant` | src/core/rdpos.cpp:216-239 | a transaction is not redundant exactly if its sender has at most one pooled, and that one is for the other function |
| `RdPoS.FromSender` | src/core/rdpos.cpp:216-220 | scanning the pool collects exactly the entries of a sender, each once |
| `RdPoS.Consensus.MempoolBound` | src/core/rdpos.cpp:216-239 | in every reachable state the pool holds at most twice minValidators entries |
| `RdPoS.Consensus.ValidateBlock` | src/core/rdpos.cpp:53-120 | accepts exactly the leader's block with commitments and matching seeds in schedule order, for its own height |
| `ValidatorBlock.Find` | src/core/consensus.cpp:350-358 | finds a pooled transaction of a validator and function if and only if there is one |
| `ValidatorBlock.Order` | src/core/consensus.cpp:346-370 | the scanning loop ends and lists one fitting transaction for each scheduled validator |
| `ValidatorBlock.BuildValidatorTxs` | src/core/consensus.cpp:345-379 | a full pool of recognised, matching transactions always yields a list that block validation accepts |
| `Restart.Rebuild` | src/core/rdpos.cpp:28-46 | after any run of blocks, a node rebuilt from dumped validators, read in any order, and the latest block in the store has the schedule of the running one |
| `AcceptedBlock.AcceptedRandomness` | src/utils/finalizedblock.cpp:113-132 | for all bytes: a block that is read and whose validator transactions are accepted carries the hash of exactly 32 minValidators bytes, the seeds in schedule order, each opening its validator's commitment |
| `AcceptedBlock.ReadAndValidate` | src/core/rdpos.cpp:53-120 | reading with any number of threads and validating accepts only blocks that carry those seeds and whose header the leader signed |
| `AcceptedBlock.SamePredecessor` | src/core/state.cpp:450-455 | the state's check of the predecessor and the store's are the same check |
| `AbiTypes.TotalOffsetExact` | src/contract/abi.h:162-179 | the computed size of the heads never exceeds the real one, and equals it if and only if static tuples hold single words |
| `AbiTypes.HeadSizeAtLeast` | src/contract/abi.h:162-170 | the same for one type |
| `AbiRoundTrip.HeadsSize` | src/contract/abi.h:558-578 | the heads take exactly the sum of the head sizes, whatever the values |
| `AbiRoundTrip.DecodeStatic` | src/contract/abi.h:894-919 | a static value is read back from where it stands, and the index moves behind it |
| `AbiRoundTrip.DecodeDynamic` | src/contract/abi.h:921-978 | a dynamic value is read back from its tail through the offset in its head |
| `AbiRoundTrip.DecodeEncodedArray` | src/contract/abi.h:1074-1127 | an encoded vector or fixed array is read back element by element |
| `AbiRoundTrip.DecodeHeads` | src/contract/abi.h:1046-1072 | heads and tails that stand apart in the data are read back in order |
| `AbiRoundTrip.RoundTrip` | src/contract/abi.h:654-678 | decoding undoes encoding, for every list of types built from unsigned integers, bool, address, hash, bytes, string, vectors, arrays and tuples whose static tuples hold single words, and all values of encoded size below 2^64 |
| `AbiRoundTrip.OffsetInHead` | src/contract/abi.h:563-576 | the word in the head of a dynamic component is the total offset plus the tails before it |
| `AbiRoundTrip.OffsetsPointAtTails` | src/contract/abi.h:162-179 | every offset points at its own tail if and only if static tuples beside it hold single words; otherwise it falls short |
| `AbiLoss.SurvivesIff` | src/contract/abi.h:654-678 | all values of a list of types survive if and only if, at the top and everywhere inside, static tuples next to a dynamic component hold single words; asked only: where they do not, the first dynamic component is bytes, a string, a vector or an array whose size is not the head size |
| `AbiLoss.ValuesLost` | src/contract/abi.h:162-179 | for every other such list, at whatever depth the wrong tuple is, values that do not survive |
| `AbiLoss.LossLost` | src/contract/abi.h:921-978 | such a value of one type is not read back wherever in the data it stands |
| `AbiLoss.WrongLength` | src/contract/abi.h:563-576 | the word that a wrong first offset points at is never the length of the component |
| `AbiLoss.LuckyTuple` | src/contract/abi.h:162-179 | next to a tuple of bytes all values survive although the offset is wrong |
| `AbiWire.CodeIff` | src/contract/abi.h:446-560 | for every type and value, bytes are what the encoder writes exactly if they are in the format by byte positions: numbers as the word that reads as them, a bool as 31 zeros and 0 or 1, an address behind 12 zeros, a byte string as its length, its bytes and zeros up to the first whole word, an array as its length and its list |
| `AbiWire.ListIff` | src/contract/abi.h:558-579 | the same for argument lists: there are positions of heads and tails, each where the one before ends, with every static component in its head, every dynamic one in its tail and the reserved head space plus the earlier tails in its head |
| `AbiWire.PaddedIff` | src/contract/abi.h:452-453 | the padded size is the least multiple of 32 that is at least the size and at least 32 |
| `AbiWire.ByteStringIff` | src/contract/abi.h:450-460 | the code of a byte string is 32 plus the padded size long, its first word reads as the length, the bytes follow, and all else is zero |
| `AbiWire.ArgumentsTyped` | src/contract/abi.h:1130-1170 | whatever the bytes, decoded arguments have their types, and data shorter than the heads is refused |
| `AbiWire.WordsRead` | src/contract/abi.h:894-920 | one-word arguments for all bytes: a bool is whether byte 31 is 1, an address bytes 12 to 32, a number the word modulo its range, and fewer than 32 bytes are refused |
| `AbiWire.StringReadIff` | src/contract/abi.h:921-976 | a byte string is read exactly if it stands, behind its length, where the first word points, both taken as 64-bit numbers |
| `AbiCoder.EncodeItems` | src/contract/abi.h:558-579 | for all types the one-pass encoder with its running offset writes the heads and tails, at the byte positions of the format |
| `AbiCoder.EncodeArray` | src/contract/abi.h:590-650 | the same for vectors and arrays |
| `AbiCoder.EncodeDynamicElements` | src/contract/abi.h:595-612 | the same for elements behind offsets |
| `AbiCoder.PadSize` | src/contract/abi.h:452-453 | the padding loop stops at the least multiple of 32 that is at least the size, and at least 32 |
| `AbiCoder.DecodeElements` | src/contract/abi.h:1074-1127 | the same for vectors and arrays, with the check of a fixed size |
| `AbiCoder.Transmit` | src/contract/abi.h:1130-1170 | encoder and decoder as they run: arguments reach the other side unchanged if static tuples next to dynamic components hold single words, and otherwise the lost values do not |
| `TypeStrings.FieldsIff` | src/utils/jsonabi.cpp:34-58 | taking the printed fields of a tuple apart returns the printed fields if and only if there is one and no name is cut; otherwise the number of pieces says how many cuts there were |
| `TypeStrings.NameIsTuple` | src/utils/jsonabi.cpp:10-32 | a printed type is taken for a tuple, and for an array, exactly if it is one, and its trailing brackets are counted exactly |
| `TypeStrings.DescribeKinds` | src/utils/jsonabi.cpp:60-87 | what ought to be described: an elementary type by its name, a tuple as "tuple" with its fields, an array by one more pair of brackets |
| `TypeStrings.DescribedIff` | src/utils/jsonabi.cpp:60-87 | the description read from a printed type is the type's own, through all levels, if and only if no tuple is empty and no name is cut |
| `TypeStrings.ShallowClean` | src/utils/jsonabi.cpp:44-54 | types without empty tuples, nested at most 65536 deep, are never cut |
| `TypeStrings.TooDeep` | src/utils/jsonabi.cpp:44-54 | a type one level deeper that is cut |
| `TypeNames.Spelling` | src/contract/abi.h:211-340 | the names themselves: "bool", "address", "bytes32", "bytes", "string", "uint8", "uint64", "uint256", brackets behind an element, parentheses and commas around fields |
| `TypeNames.UIntSpelling` | src/contract/abi.h:211-242 | the name of an unsigned integer is "uint" and the decimal of its number of bits, and no other digits |
| `TypeNames.SignaturesIff` | src/contract/abi.h:343-353 | two argument lists have the same signature if and only if they agree up to arrays of a fixed size read as vectors |
| `TypeNames.SameSignature` | src/contract/abi.h:323-340 | two different argument lists with one signature |
| `TypeNames.NamesApart` | src/contract/abi.h:301-340 | a list of type names can be read in one way only |
| `TypeNames.Described` | src/utils/jsonabi.cpp:60-87 | every type of the encoder nested at most 65536 deep is described right in the JSON interface |
| `TypeStrings.CountTupleArrays` | src/utils/jsonabi.cpp:23-32 | the backward loop counts the trailing brackets of a tuple and stays inside the string |
| `TypeStrings.GetTupleTypes` | src/utils/jsonabi.cpp:34-58 | the scanning loop computes the pieces between separating commas |
| `TypeStrings.HandleTupleComponents` | src/utils/jsonabi.cpp:60-87 | the recursive loop terminates on every list of strings and computes the description |
| `BigEndian.MostSignificantFirst` | src/utils/uintconv.cpp:559-582 | the first byte counts most |
| `BigEndian.Ranges` | src/utils/uintconv.cpp:559-582 | the ranges at which the model wraps numbers around are those of 4, 8 and 32 bytes |
| `BigEndian.DecodeEncode` | src/utils/uintconv.cpp:559-582 | reading a written number returns it |
| `BigEndian.EncodeDecode` | src/utils/uintconv.cpp:559-582 | writing a read number returns its bytes |
| `Merkle.NewLayer` | src/utils/merkle.cpp:10-26 | the loop hashes neighbours in ascending order and lets an odd last one through |
| `Merkle.MerkleTree.constructor` | src/utils/merkle.cpp:28-38 | building layers terminates; the layers start at the hashed leaves and end in one node |
| `Merkle.RootIsDigest` | src/utils/merkle.cpp:28-38 | the last layer holds the digest of the tree whose left part is the largest full tree |
| `Merkle.MerkleTree.GetRoot` | src/utils/merkle.h:53-57 | the zero hash without leaves, otherwise that digest |
| `Merkle.MerkleTree.GetProof` | src/utils/merkle.cpp:40-53 | the empty proof past the leaves; for a leaf its sibling path in the tree if the leaf is provable, otherwise a read past a layer |
| `Merkle.ProofIsSiblingPath` | src/utils/merkle.cpp:40-53 | walking up the layers collects the sibling path, exactly for the provable leaves |
| `Merkle.AllProvableIff` | src/utils/merkle.cpp:40-53 | all leaves have a proof if and only if their number is a power of two |
| `Merkle.Verify` | src/utils/merkle.cpp:55-67 | the loop accepts exactly if the proof leads from the leaf to the root |
| `Merkle.PathClimbs` | src/utils/merkle.cpp:55-67 | completeness: the sibling path of every leaf leads to the digest of the tree |
| `Merkle.ProveAndVerify` | src/utils/merkle.cpp:40-67 | the proof of a provable leaf is accepted against the root |
| `Merkle.AcceptedIff` | src/utils/merkle.cpp:55-67 | soundness: without collisions, and with leaves that are no pair hashes, a proof of any length is accepted if and only if it is the sibling path of a subtree with the given digest |
| `Merkle.FullProofSound` | src/utils/merkle.cpp:55-67 | in a tree of 2^k leaves a length-k proof that is accepted is the sibling path of a leaf, if only the pair hash has no collisions |
| `Merkle.FullTree` | src/utils/merkle.cpp:28-38 | with 2^k leaves all are at depth k |
| `BlockCodec.SerializeBlock` | src/utils/finalizedblock.cpp:212-240 | writing in one pass, with the place of the validator transactions filled in later, gives the format |
| `BlockCodec.BlockSize` | src/utils/finalizedblock.cpp:183-185 | the size computed without writing is the size written |
| `BlockCodec.FromBytes` | src/utils/finalizedblock.cpp:14-150 | reads the format with the same result for every number of threads; if there is a block, bytes 129 to 161, 161 to 193 and 97 to 129 are the validator root, the transaction root and the randomness of its transactions, and every validator transaction is for the height in bytes 201 to 209 |
| `BlockFields.ReadIff` | src/utils/finalizedblock.cpp:14-150 | for all bytes and blocks: the bytes are read as the block exactly if every fixed field stands in its place, the transactions stand in a row of frames from byte 217 on as long as that is before the start given in bytes 209 to 217, the validator transactions from there to the end, and the derived fields belong to them |
| `BlockFields.ChangedIff` | src/utils/finalizedblock.cpp:113-132 | however the header bytes of a block that was read are changed, it is read again exactly if randomness and both roots are untouched, and the height too unless it has no validator transactions |
| `BlockFields.WrittenAndChanged` | src/utils/finalizedblock.cpp:113-132 | the same for every block that was written |
| `BlockFields.WrittenFields` | src/utils/finalizedblock.cpp:212-240 | a written block has every field at its byte positions and every transaction behind its length in its frame |
| `BlockCodec.TakeParallel` | src/utils/finalizedblock.cpp:65-111 | shares read by several threads from skipped-to offsets, put together in order, are what one thread reads, errors included |
| `BlockCodec.TakeSplits` | src/utils/finalizedblock.cpp:99-104 | reading in a row is reading a part and then the rest from where skipping leads |
| `BlockCodec.RoundTrip` | src/utils/finalizedblock.cpp:14-150 | a written block is read back unchanged if and only if its roots, randomness and heights belong to it |
| `BlockCodec.HashedWindow` | src/utils/finalizedblock.cpp:134-136 | for every accepted input the hashed bytes 65 to 209 are the header of the block that was read |
| `TxProofs.TxProofIff` | src/utils/merkle.cpp:55-67 | for all bytes read as a block with 2^k transactions, a length-k proof is accepted against the root in bytes 161 to 193 if and only if it is the sibling path of one of the block's transactions |
| `TxProofs.ValidatorProofIff` | src/utils/merkle.cpp:55-67 | the same for the validator transactions and the root in bytes 129 to 161 |
| `TxProofs.CheckTx` | src/utils/finalizedblock.cpp:126-132 | reading the block and verifying the proof decide exactly that |
| `BlockCodec.TxFromBlock` | src/core/storage.cpp:128-140 | the loop skips length prefixes in 32-bit arithmetic and reads one transaction |
| `BlockCodec.TxOfBlock` | src/core/storage.cpp:128-140 | skipping i prefixes of a stored block reads the block's i-th transaction |
| `OrderedDb.IncrementInPlace` | src/utils/db.cpp:95-98 | the carry loop counts the prefix up as a number of fixed width and reports overflow |
| `OrderedDb.Between` | src/utils/db.cpp:91-104 | between a prefix and the counted-up prefix lie the keys with the prefix and the gap, and nothing else |
| `OrderedDb.GetLastByPrefix` | src/utils/db.cpp:91-111 | finds the value of the last key with the prefix if no key lies in the gap, otherwise nothing |
| `OrderedDb.HeightKeyOrder` | src/core/storage.cpp:24-24 | big-endian height keys are ordered like heights |
| `OrderedDb.TipFound` | src/core/storage.cpp:64-70 | the last height key belongs to the greatest height |
| `Storage.Chain.StoreBlock` | src/core/storage.cpp:21-37 | the batch writes the block, its height and the entries of its transactions |
| `Storage.Chain.BlockGet` | src/core/storage.cpp:21-37 | after a block is stored every key of every category reads as it should: the later of equal transactions wins, everything else is as before |
| `Storage.Chain.StoredBytes` | src/core/storage.cpp:21-37 | storing writes the serialized block under 00 01 and its hash, and the hash under 00 02 and the height in 8 bytes |
| `Storage.Chain.IndexedBytes` | src/core/storage.cpp:21-37 | and under 00 04 and the hash of a transaction the 44 bytes of block hash, place in the block in 4 bytes and height in 8 |
| `Storage.Chain.Grows` | src/core/storage.cpp:142-149 | storing the next block makes the store hold the longer chain |
| `Storage.Chain.HoldsIff` | src/core/storage.cpp:142-149 | a new storable block makes the store hold the longer chain if and only if its height is the next |
| `Storage.Chain.AnswersIff` | src/core/storage.cpp:142-168 | for every block that can be written, every height then yields the block of the longer chain at that place, if and only if the block has the next height, consistent fields and a hash of its own |
| `Storage.Chain.TipAfter` | src/core/storage.cpp:64-70 | after any block was written the last height belongs to it if and only if no stored height is greater |
| `Storage.Chain.FindIsLast` | src/core/storage.cpp:170-186 | scanning the chain backwards meets the last occurrence of a transaction first |
| `Storage.BlockStore.constructor` | src/core/storage.cpp:102-113 | an empty store is given the genesis block |
| `Storage.BlockStore.PushBlock` | src/core/storage.cpp:142-149 | a block is refused, and nothing changes, exactly if it does not name the latest block; otherwise it is written and becomes the latest, and readers get the longer chain if and only if it has the next height, consistent fields and a hash of its own |
| `Storage.BlockStore.PushThenRestart` | src/core/storage.cpp:64-73 | after a storable block was accepted, a restarted node has it as its latest if and only if no stored height is greater, and otherwise the block before it |
| `MisplacedBlock.LoseTip` | src/core/storage.cpp:142-149 | a block that is accepted and becomes the latest; restarted, the node has another latest block, and a height yields another block than before |
| `Storage.BlockStore.GetBlock` | src/core/storage.cpp:163-168 | a height yields the block at that place of the chain, or nothing |
| `Storage.BlockStore.GetTx` | src/core/storage.cpp:170-186 | the index finds the transaction, block hash, place and height that scanning all blocks finds, for every hash and every run |
| `Storage.BlockStore.LoadLatest` | src/core/storage.cpp:64-73 | a restarted node loads the block it had as its latest |
| `Observers.Drain` | src/contract/blockobservers.cpp:34-81 | from every queue whose due members have their next deadline in range, whatever callbacks register: the loop terminates; every due observer is called exactly once, the earliest first; none is lost; all deadlines are in the future |
| `Observers.BlockObservers.NotifyNumberQueue` | src/contract/blockobservers.cpp:34-81 | the same for the queue of heights, with registrations for both queues |
| `Observers.BlockObservers.NotifyTimestampQueue` | src/contract/blockobservers.cpp:83-127 | the same for the queue of timestamps |
| `Observers.BlockObservers.Notify` | src/contract/blockobservers.cpp:29-32 | one block makes a full round of both queues |
| `Observers.CalledOnSchedule` | src/contract/dynamiccontract.h:250-276 | over every run of consecutive rounds, an observer that alone carries its callback is called in a round if and only if its height is the first deadline plus a multiple of the step, and then once |
| `Observers.RoundKeepsOnly` | src/contract/blockobservers.cpp:42-80 | a round of the queue keeps such an observer alone, moved on exactly if it was due |
| `Observers.StuckStays` | src/contract/blockobservers.cpp:42-80 | a due observer whose next deadline leaves 64 bits, or whose step is 0, stays due whatever the loop serves |
| `Observers.EndsExactly` | src/contract/blockobservers.cpp:42-80 | the loop ends, for all callbacks that register in range, if and only if every due member has its next deadline in range |
| `Observers.EndsUnlessStuck` | src/contract/blockobservers.cpp:42-80 | for all callbacks whatsoever: after more services than there were members the queue holds a stuck one |
| `Observers.AlwaysMore` | src/contract/blockobservers.cpp:42-80 | a queue with a stuck member can be served n times, for every n |
| `Observers.StuckForever` | src/contract/blockobservers.cpp:42-80 | once a member is stuck, registered or there from the start, one is stuck ever after |

## Left out

- NodeState.State.TryProcessNextBlock: the sum of all balances plus all that the block can mint must stay below 2^256, because the source adds to balances without a check; senders are addresses on which no contract is or will be placed. That the invariant of the mempool holds again is promised only if no debit of the block wraps around (`Transactions.AlwaysPaysIff`) and callbacks are harmless. The verdict of the consensus is an argument, which Node.FullNode.TryProcessNextBlock computes.
- NodeState.State.AddTx: validating and inserting are one step, while the source takes its lock twice; two overlapping additions are not modelled.
- ContractHost.ExecuteOn: variables of C++ contracts, which are committed or reverted once at the end of an execution and not by nested messages, are not part of the world; nor is transient storage, which the source does not journal; nor are the observer queues, which keep the observers of a contract whose creation is reverted.
- MessageDispatcher.Dispatcher.RunScript: code is a finite tree; what it computes from returned bytes, the depth limit and the text of the deepest error are not modelled. Whether an empty account exists is not observable.
- MessageDispatcher.Dispatcher.CreateEvm: the new address is given with the message, any address; how it is derived from nonce or salt is not modelled.
- Transactions.AlwaysPaysIff: gas limit and value are numbers of 64 and 256 bits, as in the source.
- RdPoS.Consensus.constructor: with minValidators validators or fewer the object is built but the invariant does not hold, and the source then indexes past the schedule.
- Effects.EmitStep: an event is one that reaches the context; the source lets logs of EVM code through only when it keeps traces.
- AbiRoundTrip.RoundTrip: signed integers and FixedBytes are left out: the source's decoders do not invert its encoders for them.
- AbiCoder.Transmit: offsets and lengths are read modulo 2^64 as in the source, but sums of them are not wrapped; reads outside the data count as too short.
- AbiCoder.PadSize: the source counts the padding in a 32-bit int, which overflows for strings of nearly 2^31 bytes; the model counts without a bound.
- AbiLoss.SurvivesIff: lists with wrong offsets whose first dynamic component is a tuple, or an array whose size is the head size, have no exact condition: some of them survive (AbiLoss.LuckyTuple). The values lost must fit in memory.
- BlockCodec.FromBytes: reading past the end of the bytes counts as an error; recovering the signer from the signature is left out.
- Restoring.MessageSame: one way only: a loss further down can be made good by an enclosing failure, so two runs may agree without being intact; for the failing message itself Restoring.FailureExactIff is exact.
- Node.FullNode.TryProcessNextBlock: that all parts stand at the same block again is promised for a block that can be written and read back and whose hash is not that of an earlier one.
- Observers.CalledOnSchedule: heights stay a step below 2^64.
- Storage.BlockStore.GetTx: no two block hashes of the chain may collide, and transactions must be shorter than 2^32 - 4 bytes.
- Observers.BlockObservers.Notify: only the scheduling; what a callback does to the world is in NodeState, and the seed and index given to it are left out. Deadlines are recomputed when a node loads a snapshot, which is not modelled.
- TypeStrings.DescribedIff: names of arguments, indexing of event arguments and the mutability of functions only copy fields and are left out.
- Merkle.AcceptedIff: that hashes do not collide is an assumption of the statement.
- TxProofs.TxProofIff: the same; numbers of transactions that are no powers of two are covered by Merkle.AcceptedIff only.
- The parser of transactions (RLP), signatures, snapshots of accounts on disk and event queries: easy members or foreign code.
- The call tracer, reflection and registration of contract functions, initialisation of contract variables: no property as hard as those above.
- Network, RPC, synchronisation, thread pool, options, logging, databases and the virtual machine itself: input and output or foreign code.
- The contracts shipped with the kit (tokens, exchange, randomness test contracts): application code.
