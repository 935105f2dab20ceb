/** Messages between contracts, and what contract code does when a message reaches it.
    Contract code is foreign to this model: a `Script` is any finite tree of the effects code can
    have on the node, branching on whether each nested message returned or threw. */
module Messages {
  import opened Base

  datatype Outcome = Success | OutOfGas | Failure

  datatype CallKind = Call | StaticCall | DelegateCall

  /** How native code ended: its outcome and the gas it reports as left. */
  datatype Halt = Halt(outcome: Outcome, gasLeft: nat)

  datatype Message =
    | CallMessage(
        kind: CallKind,
        encoded: bool,         // false for a packed C++-to-C++ call
        to: Address,           // ignored by a delegate call, which keeps the caller's address
        codeAddress: Address,  // only used by a delegate call
        value: nat,            // ignored by a static call
        emptyInput: bool,
        gas: nat,              // gas granted when an EVM frame sends the message
        native: Halt,          // answer of the precompiled contract, if `to` is one
        body: Script)          // what the called contract does
    | EvmCreate(
        salted: bool,
        contractAddress: Address,
        value: nat,
        codeHash: Hash,        // hash of `code`
        code: Bytes,           // what the init code returns
        gas: nat,
        body: Script)
    | CppCreate(gas: nat, body: Script)

  datatype Script =
    | Done(halt: Halt)
    | Touch(address: Address, next: Script)
    | Store(slot: Hash, data: Hash, next: Script)
    | Emit(payload: Bytes, next: Script)
    | AddContract(contractAddress: Address, instance: nat, next: Script)
    | Nested(message: Message, onSuccess: Script, onFailure: Script)

  const CONTRACT_EXECUTION_COST: nat := 21_000
  const EVM_CONTRACT_CREATION_COST: nat := 100_000
  const CPP_CONTRACT_CREATION_COST: nat := 50_000
  const CPP_CONTRACT_CALL_COST: nat := 1_000

  /** How the world is put back when a message throws: from a copy made when the message started, or
      by popping the journal. */
  datatype Restore = Copied | Popped

  /** What the node knows about addresses: the precompiled ones and the contract manager. */
  datatype Config = Config(precompiled: set<Address>, contractManager: Address, restore: Restore)

  /** The value a call moves: static calls have no value field and delegate calls move nothing. */
  function ValueMoved(m: Message): nat
    requires m.CallMessage?
  {
    if m.kind.Call? then m.value else 0
  }

  /** Where the contract creations of a message put their contracts: C++ ones inside `cpp`, EVM
      ones outside. Both kinds of creation derive the address from the creator and its nonce, and a
      call to the contract manager does not count the nonce, so this can fail without any collision. */
  predicate Placed(m: Message, cpp: set<Address>)
    decreases m
  {
    match m
    case CallMessage(_, _, _, _, _, _, _, _, body) => PlacedScript(body, cpp)
    case EvmCreate(_, a, _, _, _, _, body) => a !in cpp && PlacedScript(body, cpp)
    case CppCreate(_, body) => PlacedScript(body, cpp)
  }

  predicate PlacedScript(s: Script, cpp: set<Address>)
    decreases s
  {
    match s
    case Done(_) => true
    case Touch(_, next) => PlacedScript(next, cpp)
    case Store(_, _, next) => PlacedScript(next, cpp)
    case Emit(_, next) => PlacedScript(next, cpp)
    case AddContract(a, _, next) => a in cpp && PlacedScript(next, cpp)
    case Nested(m, ok, fail) => Placed(m, cpp) && PlacedScript(ok, cpp) && PlacedScript(fail, cpp)
  }

  /** No contract creation of the message lands on address `k`. */
  predicate Avoids(m: Message, k: Address)
    decreases m
  {
    match m
    case CallMessage(_, _, _, _, _, _, _, _, body) => AvoidsScript(body, k)
    case EvmCreate(_, a, _, _, _, _, body) => a != k && AvoidsScript(body, k)
    case CppCreate(_, body) => AvoidsScript(body, k)
  }

  predicate AvoidsScript(s: Script, k: Address)
    decreases s
  {
    match s
    case Done(_) => true
    case Touch(_, next) => AvoidsScript(next, k)
    case Store(_, _, next) => AvoidsScript(next, k)
    case Emit(_, next) => AvoidsScript(next, k)
    case AddContract(a, _, next) => a != k && AvoidsScript(next, k)
    case Nested(m, ok, fail) => Avoids(m, k) && AvoidsScript(ok, k) && AvoidsScript(fail, k)
  }
}
