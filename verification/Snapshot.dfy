/** Semantics of messages without any journal. Under `Copied`, the reference, the whole world is copied
    when a message starts and the copy is put back when the message throws. Under `Popped` what is put
    back misses the C++ contracts at the addresses where EVM creations of the message completed. */
module Snapshot {
  import opened Base
  import opened WorldState
  import opened Messages

  /** The result of running a message or a script. `cppReverted` is the dispatcher's sticky flag;
      `cppThrows` counts the C++ contract calls that threw, at any depth, and `minted` the value
      that surviving contract creations credited. `erased` are the addresses at which EVM creations
      completed, also those that were undone later. The run is `intact` if no message that failed had
      completed an EVM creation where a C++ contract lived when the message started. */
  datatype Run = Run(
    outcome: Outcome, gas: nat, world: World, cppReverted: bool, cppThrows: nat, minted: nat,
    erased: set<Address>, intact: bool)

  function Stop(outcome: Outcome, gas: nat, w: World, cppReverted: bool): Run {
    Run(outcome, gas, w, cppReverted, 0, 0, {}, true)
  }

  function Then(first: Run, second: Run): Run {
    second.(cppThrows := first.cppThrows + second.cppThrows, minted := first.minted + second.minted,
            erased := first.erased + second.erased, intact := first.intact && second.intact)
  }

  /** What is put back when a message that started in `w` throws. */
  function Restored(c: Config, w: World, erased: set<Address>): (r: World)
    ensures r.(contracts := w.contracts) == w
  {
    if c.restore.Copied? then w else Without(w, erased)
  }

  /** Runs a message from `caller`, the address of the executing contract or of the transaction sender. */
  function OnMessage(c: Config, caller: Address, m: Message, gas: nat, w: World, cppReverted: bool): (r: Run)
    ensures r.gas <= gas
    ensures cppReverted || r.cppThrows > 0 ==> r.cppReverted
    ensures r.outcome.Success? ==> !r.cppReverted
    ensures !r.outcome.Success? ==> r.world == Restored(c, w, r.erased) && r.minted == 0
    ensures !r.outcome.Success? && r.intact ==> r.erased !! w.contracts.Keys
    decreases m, 3
  {
    var d := Dispatch(c, caller, m, gas, w, cppReverted);
    if d.outcome.Success? && !d.cppReverted then d
    else d.(outcome := if d.outcome.Success? then Failure else d.outcome,
            world := Restored(c, w, d.erased), minted := 0,
            intact := d.intact && d.erased !! w.contracts.Keys)
  }

  function Dispatch(c: Config, caller: Address, m: Message, gas: nat, w: World, cppReverted: bool): (r: Run)
    ensures r.gas <= gas
    ensures cppReverted || r.cppThrows > 0 ==> r.cppReverted
    decreases m, 2
  {
    match m
    case CallMessage(_, _, _, _, _, _, _, _, _) =>
      if AccountOf(w, caller).balance < ValueMoved(m) then Stop(Failure, gas, w, cppReverted)
      else
        var to := if m.kind.DelegateCall? then caller else m.to;
        DispatchCall(c, caller, to, m, gas, TransferFunds(w, caller, to, ValueMoved(m)), cppReverted)
    case EvmCreate(_, a, value, _, _, _, body) =>
      if gas < EVM_CONTRACT_CREATION_COST then Stop(OutOfGas, 0, w, cppReverted)
      else
        var b := RunScript(c, true, a, body, gas - EVM_CONTRACT_CREATION_COST, w, cppReverted);
        if !b.outcome.Success? then b
        else b.(world := FinishCreate(b.world, caller, m), minted := b.minted + value, erased := b.erased + {a})
    case CppCreate(_, body) =>
      if gas < CPP_CONTRACT_CREATION_COST then Stop(OutOfGas, 0, w, cppReverted)
      else if c.contractManager !in w.contracts then
        Stop(Failure, gas - CPP_CONTRACT_CREATION_COST, w, cppReverted)
      else
        var b := RunScript(c, false, c.contractManager, body, gas - CPP_CONTRACT_CREATION_COST, w, cppReverted);
        if b.outcome.Success? then b.(world := BumpContractNonce(b.world, caller)) else b
  }

  /** The call once its funds have moved. */
  function DispatchCall(
    c: Config, caller: Address, to: Address, m: Message, gas: nat, w: World, cppReverted: bool): (r: Run)
    requires m.CallMessage?
    ensures r.gas <= gas
    ensures cppReverted || r.cppThrows > 0 ==> r.cppReverted
    decreases m, 1
  {
    if to in c.precompiled then
      if m.kind.DelegateCall? then Stop(Failure, gas, w, cppReverted)
      else if gas < CPP_CONTRACT_CALL_COST then Stop(OutOfGas, 0, w, cppReverted)
      else Stop(m.native.outcome, Min(m.native.gasLeft, gas - CPP_CONTRACT_CALL_COST), w, cppReverted)
    else
      match AccountOf(w, if m.kind.DelegateCall? then m.codeAddress else to).contractType
      case Cpp =>
        var b := CallCpp(c, to, m, gas, w, cppReverted);
        if b.outcome.Success? then b else b.(cppReverted := true, cppThrows := b.cppThrows + 1)
      case Evm => RunScript(c, true, to, m.body, gas, w, cppReverted)
      case NotAContract =>
        Stop(if m.encoded && m.emptyInput then Success else Failure, gas, w, cppReverted)
  }

  function CallCpp(c: Config, to: Address, m: Message, gas: nat, w: World, cppReverted: bool): (r: Run)
    requires m.CallMessage?
    ensures r.gas <= gas
    ensures cppReverted || r.cppThrows > 0 ==> r.cppReverted
    decreases m, 0
  {
    var cost := if m.encoded && to == c.contractManager then CPP_CONTRACT_CREATION_COST else CPP_CONTRACT_CALL_COST;
    if m.kind.DelegateCall? then Stop(Failure, gas, w, cppReverted)
    else if gas < cost then Stop(OutOfGas, 0, w, cppReverted)
    else if to !in w.contracts then Stop(Failure, gas - cost, w, cppReverted)
    else RunScript(c, false, to, m.body, gas - cost, w, cppReverted)
  }

  /** Runs the code of contract `self`. An EVM frame meters its own gas and grants each nested
      message its own; a C++ frame shares one gas counter with the messages it sends. */
  function RunScript(c: Config, evm: bool, self: Address, s: Script, gas: nat, w: World, cppReverted: bool): (r: Run)
    ensures r.gas <= gas
    ensures cppReverted || r.cppThrows > 0 ==> r.cppReverted
    decreases s
  {
    match s
    case Done(halt) =>
      Stop(halt.outcome, if evm then Min(halt.gasLeft, gas) else gas, w, cppReverted)
    case Touch(_, next) => RunScript(c, evm, self, next, gas, w, cppReverted)
    case Store(slot, data, next) =>
      RunScript(c, evm, self, next, gas, w.(storage := w.storage[(self, slot) := data]), cppReverted)
    case Emit(payload, next) => RunScript(c, evm, self, next, gas, LogEvent(w, self, payload), cppReverted)
    case AddContract(a, instance, next) =>
      if a in w.contracts then Stop(Failure, gas, w, cppReverted)
      else RunScript(c, evm, self, next, gas, RegisterContract(w, a, instance), cppReverted)
    case Nested(m, onSuccess, onFailure) =>
      var n := OnMessage(c, self, m, if evm then m.gas else gas, w, cppReverted);
      Then(n, RunScript(c, evm, self, if n.outcome.Success? then onSuccess else onFailure,
                        if evm then gas else n.gas, n.world, n.cppReverted))
  }

  /** A whole execution as the contract host starts it, charging the base cost first. */
  function Execute(c: Config, caller: Address, m: Message, gas: nat, w: World): (r: Run)
    ensures r.gas <= gas
    ensures r.cppThrows > 0 ==> !r.outcome.Success?
    ensures !r.outcome.Success? ==> r.world == Restored(c, w, r.erased) && r.minted == 0
  {
    if gas < CONTRACT_EXECUTION_COST then Stop(OutOfGas, 0, w, false)
    else OnMessage(c, caller, m, gas - CONTRACT_EXECUTION_COST, w, false)
  }

  /** Once an execution is over its events and announcements are handed on and forgotten. */
  function Settle(w: World): World {
    w.(events := [], newContracts := [])
  }

  function Min(x: nat, y: nat): nat {
    if x < y then x else y
  }

  /** Balances are 256-bit words, so a credit wraps. */
  function Credit(w: World, a: Address, amount: nat): World {
    SetBalance(w, a, Wrap256(AccountOf(w, a).balance + amount))
  }

  function Transfer(w: World, from: Address, to: Address, amount: nat): World
    requires amount <= AccountOf(w, from).balance
  {
    Credit(SetBalance(w, from, AccountOf(w, from).balance - amount), to, amount)
  }

  function TransferFunds(w: World, from: Address, to: Address, amount: nat): World
    requires amount <= AccountOf(w, from).balance
  {
    if amount == 0 then w else Transfer(w, from, to, amount)
  }

  function LogEvent(w: World, emitter: Address, payload: Bytes): World {
    w.(events := w.events + [Event(|w.events|, emitter, payload)])
  }

  function RegisterContract(w: World, a: Address, instance: nat): World {
    Announce(SetContractType(SetNonce(w.(contracts := w.contracts[a := instance]), a, 1), a, Cpp), a, Some(instance))
  }

  function Announce(w: World, a: Address, instance: Option<nat>): World {
    w.(newContracts := w.newContracts + [NewContract(a, instance)])
  }

  /** Turns `a` into an EVM contract. Code already known under its hash is shared, not replaced. */
  function Deploy(w: World, a: Address, value: nat, codeHash: Hash, code: Bytes): World {
    var shared := ShareCode(w, codeHash, code);
    Announce(WriteContract(shared, a, value, codeHash, shared.evmContracts[codeHash]), a, None)
  }

  function ShareCode(w: World, codeHash: Hash, code: Bytes): (r: World)
    ensures codeHash in r.evmContracts
  {
    if codeHash in w.evmContracts then w else w.(evmContracts := w.evmContracts[codeHash := code])
  }

  function WriteContract(w: World, a: Address, value: nat, codeHash: Hash, code: Bytes): World {
    Credit(SetContractType(SetCode(SetCodeHash(SetNonce(w, a, 1), a, codeHash), a, Some(code)), a, Evm), a, value)
  }

  /** What follows the init code of an EVM creation; a salted creation leaves the creator's nonce alone. */
  function FinishCreate(w: World, caller: Address, m: Message): World
    requires m.EvmCreate?
  {
    var deployed := Deploy(w, m.contractAddress, m.value, m.codeHash, m.code);
    if m.salted then deployed else BumpContractNonce(deployed, caller)
  }

  /** Contracts count their creations in their nonce; a transaction sender's nonce is counted elsewhere. */
  function BumpContractNonce(w: World, a: Address): World {
    if AccountOf(w, a).contractType.NotAContract? then w
    else SetNonce(w, a, Wrap64(AccountOf(w, a).nonce + 1))
  }
}
