/** When popping the journal restores the world that a copy would restore. */
module Restoring {
  import opened Base
  import opened WorldState
  import opened Messages
  import opened Snapshot

  function Copying(c: Config): Config {
    c.(restore := Copied)
  }

  function Popping(c: Config): Config {
    c.(restore := Popped)
  }

  /** The two ways to restore give the same run as soon as one of the runs is intact. */
  ghost predicate Same(popped: Run, copied: Run) {
    popped.intact || copied.intact ==> popped == copied
  }

  /** The journal refines the copies: for every message tree, if no message that failed had completed an
      EVM creation where a C++ contract lived, popping and copying end in the same outcome and world. */
  lemma {:induction false} MessageSame(
    c: Config, caller: Address, m: Message, gas: nat, w: World, cppReverted: bool)
    ensures Same(OnMessage(Popping(c), caller, m, gas, w, cppReverted),
                 OnMessage(Copying(c), caller, m, gas, w, cppReverted))
    decreases m, 3
  {
    DispatchSame(c, caller, m, gas, w, cppReverted);
    WithoutIff(w, Dispatch(Popping(c), caller, m, gas, w, cppReverted).erased);
  }

  lemma {:induction false} DispatchSame(
    c: Config, caller: Address, m: Message, gas: nat, w: World, cppReverted: bool)
    ensures Same(Dispatch(Popping(c), caller, m, gas, w, cppReverted),
                 Dispatch(Copying(c), caller, m, gas, w, cppReverted))
    decreases m, 2
  {
    match m
    case CallMessage(_, _, _, _, _, _, _, _, _) =>
      if AccountOf(w, caller).balance >= ValueMoved(m) {
        var to := if m.kind.DelegateCall? then caller else m.to;
        CallSame(c, caller, to, m, gas, TransferFunds(w, caller, to, ValueMoved(m)), cppReverted);
      }
    case EvmCreate(_, a, _, _, _, _, body) =>
      if gas >= EVM_CONTRACT_CREATION_COST {
        ScriptSame(c, true, a, body, gas - EVM_CONTRACT_CREATION_COST, w, cppReverted);
      }
    case CppCreate(_, body) =>
      if gas >= CPP_CONTRACT_CREATION_COST {
        ScriptSame(c, false, c.contractManager, body, gas - CPP_CONTRACT_CREATION_COST, w, cppReverted);
      }
  }

  lemma {:induction false} CallSame(
    c: Config, caller: Address, to: Address, m: Message, gas: nat, w: World, cppReverted: bool)
    requires m.CallMessage?
    ensures Same(DispatchCall(Popping(c), caller, to, m, gas, w, cppReverted),
                 DispatchCall(Copying(c), caller, to, m, gas, w, cppReverted))
    decreases m, 1
  {
    if to !in c.precompiled {
      match AccountOf(w, if m.kind.DelegateCall? then m.codeAddress else to).contractType
      case Cpp => CppSame(c, to, m, gas, w, cppReverted);
      case Evm => ScriptSame(c, true, to, m.body, gas, w, cppReverted);
      case NotAContract =>
    }
  }

  lemma {:induction false} CppSame(c: Config, to: Address, m: Message, gas: nat, w: World, cppReverted: bool)
    requires m.CallMessage?
    ensures Same(CallCpp(Popping(c), to, m, gas, w, cppReverted), CallCpp(Copying(c), to, m, gas, w, cppReverted))
    decreases m, 0
  {
    var cost := if m.encoded && to == c.contractManager then CPP_CONTRACT_CREATION_COST else CPP_CONTRACT_CALL_COST;
    if gas >= cost {
      ScriptSame(c, false, to, m.body, gas - cost, w, cppReverted);
    }
  }

  lemma {:induction false} ScriptSame(
    c: Config, evm: bool, self: Address, s: Script, gas: nat, w: World, cppReverted: bool)
    ensures Same(RunScript(Popping(c), evm, self, s, gas, w, cppReverted),
                 RunScript(Copying(c), evm, self, s, gas, w, cppReverted))
    decreases s
  {
    match s
    case Done(_) =>
    case Touch(_, next) => ScriptSame(c, evm, self, next, gas, w, cppReverted);
    case Store(slot, data, next) =>
      ScriptSame(c, evm, self, next, gas, w.(storage := w.storage[(self, slot) := data]), cppReverted);
    case Emit(payload, next) => ScriptSame(c, evm, self, next, gas, LogEvent(w, self, payload), cppReverted);
    case AddContract(a, instance, next) =>
      if a !in w.contracts {
        ScriptSame(c, evm, self, next, gas, RegisterContract(w, a, instance), cppReverted);
      }
    case Nested(m, onSuccess, onFailure) =>
      var g := if evm then m.gas else gas;
      MessageSame(c, self, m, g, w, cppReverted);
      var n := OnMessage(Copying(c), self, m, g, w, cppReverted);
      ScriptSame(c, evm, self, if n.outcome.Success? then onSuccess else onFailure,
                 if evm then gas else n.gas, n.world, n.cppReverted);
  }

  lemma ExecuteSame(c: Config, caller: Address, m: Message, gas: nat, w: World)
    ensures Same(Execute(Popping(c), caller, m, gas, w), Execute(Copying(c), caller, m, gas, w))
  {
    if gas >= CONTRACT_EXECUTION_COST {
      MessageSame(c, caller, m, gas - CONTRACT_EXECUTION_COST, w, false);
    }
  }

  /** A message that throws is put back exactly if and only if none of its EVM creations completed at
      the address of a C++ contract that was there when it started. */
  lemma FailureExactIff(c: Config, caller: Address, m: Message, gas: nat, w: World, cppReverted: bool)
    requires !OnMessage(Popping(c), caller, m, gas, w, cppReverted).outcome.Success?
    ensures var r := OnMessage(Popping(c), caller, m, gas, w, cppReverted);
      r.world == w <==> r.erased !! w.contracts.Keys
  {
    WithoutIff(w, OnMessage(Popping(c), caller, m, gas, w, cppReverted).erased);
  }

  // ---------- A static condition ----------

  /** C++ contracts stay inside a set of addresses, EVM creations outside, and nothing is lost. */
  ghost predicate KeptApart(cpp: set<Address>, r: Run) {
    r.intact && r.erased !! cpp && r.world.contracts.Keys <= cpp
  }

  /** Creations that keep to their sides of a set of addresses lose nothing. */
  lemma {:induction false} PlacedIntact(
    c: Config, caller: Address, m: Message, gas: nat, w: World, cppReverted: bool, cpp: set<Address>)
    requires Placed(m, cpp) && w.contracts.Keys <= cpp
    ensures KeptApart(cpp, OnMessage(c, caller, m, gas, w, cppReverted))
    decreases m, 3
  {
    DispatchIntact(c, caller, m, gas, w, cppReverted, cpp);
    WithoutIff(w, Dispatch(c, caller, m, gas, w, cppReverted).erased);
  }

  lemma CreateKeepsContracts(w: World, caller: Address, m: Message)
    requires m.EvmCreate?
    ensures FinishCreate(w, caller, m).contracts == w.contracts
  {
  }

  lemma {:induction false} DispatchIntact(
    c: Config, caller: Address, m: Message, gas: nat, w: World, cppReverted: bool, cpp: set<Address>)
    requires Placed(m, cpp) && w.contracts.Keys <= cpp
    ensures KeptApart(cpp, Dispatch(c, caller, m, gas, w, cppReverted))
    decreases m, 2
  {
    match m
    case CallMessage(_, _, _, _, _, _, _, _, _) =>
      if AccountOf(w, caller).balance >= ValueMoved(m) {
        var to := if m.kind.DelegateCall? then caller else m.to;
        CallIntact(c, caller, to, m, gas, TransferFunds(w, caller, to, ValueMoved(m)), cppReverted, cpp);
      }
    case EvmCreate(_, a, _, _, _, _, body) =>
      if gas >= EVM_CONTRACT_CREATION_COST {
        ScriptIntact(c, true, a, body, gas - EVM_CONTRACT_CREATION_COST, w, cppReverted, cpp);
        CreateKeepsContracts(
          RunScript(c, true, a, body, gas - EVM_CONTRACT_CREATION_COST, w, cppReverted).world, caller, m);
      }
    case CppCreate(_, body) =>
      if gas >= CPP_CONTRACT_CREATION_COST {
        ScriptIntact(c, false, c.contractManager, body, gas - CPP_CONTRACT_CREATION_COST, w, cppReverted, cpp);
      }
  }

  lemma {:induction false} CallIntact(
    c: Config, caller: Address, to: Address, m: Message, gas: nat, w: World, cppReverted: bool, cpp: set<Address>)
    requires m.CallMessage? && Placed(m, cpp) && w.contracts.Keys <= cpp
    ensures KeptApart(cpp, DispatchCall(c, caller, to, m, gas, w, cppReverted))
    decreases m, 1
  {
    if to !in c.precompiled {
      match AccountOf(w, if m.kind.DelegateCall? then m.codeAddress else to).contractType
      case Cpp =>
        var cost := if m.encoded && to == c.contractManager then CPP_CONTRACT_CREATION_COST else CPP_CONTRACT_CALL_COST;
        if gas >= cost {
          ScriptIntact(c, false, to, m.body, gas - cost, w, cppReverted, cpp);
        }
      case Evm => ScriptIntact(c, true, to, m.body, gas, w, cppReverted, cpp);
      case NotAContract =>
    }
  }

  lemma {:induction false} ScriptIntact(
    c: Config, evm: bool, self: Address, s: Script, gas: nat, w: World, cppReverted: bool, cpp: set<Address>)
    requires PlacedScript(s, cpp) && w.contracts.Keys <= cpp
    ensures KeptApart(cpp, RunScript(c, evm, self, s, gas, w, cppReverted))
    decreases s
  {
    match s
    case Done(_) =>
    case Touch(_, next) => ScriptIntact(c, evm, self, next, gas, w, cppReverted, cpp);
    case Store(slot, data, next) =>
      ScriptIntact(c, evm, self, next, gas, w.(storage := w.storage[(self, slot) := data]), cppReverted, cpp);
    case Emit(payload, next) => ScriptIntact(c, evm, self, next, gas, LogEvent(w, self, payload), cppReverted, cpp);
    case AddContract(a, instance, next) =>
      if a !in w.contracts {
        ScriptIntact(c, evm, self, next, gas, RegisterContract(w, a, instance), cppReverted, cpp);
      }
    case Nested(m, onSuccess, onFailure) =>
      var g := if evm then m.gas else gas;
      PlacedIntact(c, self, m, g, w, cppReverted, cpp);
      var n := OnMessage(c, self, m, g, w, cppReverted);
      ScriptIntact(c, evm, self, if n.outcome.Success? then onSuccess else onFailure,
                   if evm then gas else n.gas, n.world, n.cppReverted, cpp);
  }

  // ---------- A contract that is lost ----------

  const HALT := Halt(Success, 0)
  const MANAGER: Address := 1
  const CREATOR: Address := 2
  const CREATED: Address := 3
  const PLENTY: nat := 1_000_000

  /** A contract manager and one EVM contract. */
  const START := World(
    map[MANAGER := Account(0, 1, 0, None, Cpp), CREATOR := Account(0, 1, 7, Some([]), Evm)],
    map[], map[MANAGER := 0], map[7 := []], [], [])

  function CallTo(to: Address, body: Script): Message {
    CallMessage(Call, true, to, to, 0, false, PLENTY, HALT, body)
  }

  /** The creator has the manager make a C++ contract, which does not count its nonce. Then it calls
      itself, creates an EVM contract, which therefore lands on the same address, and throws. */
  const MAKES_CPP := CallTo(MANAGER, AddContract(CREATED, 5, Done(HALT)))
  const MAKES_EVM := EvmCreate(false, CREATED, 0, 7, [], PLENTY, Done(HALT))
  const THROWS := CallTo(CREATOR, Nested(MAKES_EVM, Done(Halt(Failure, 0)), Done(Halt(Failure, 0))))
  const TREE := CallTo(CREATOR, Nested(MAKES_CPP, Nested(THROWS, Done(HALT), Done(HALT)), Done(HALT)))

  lemma CppMade(c: Config)
    requires c.precompiled == {} && c.contractManager == MANAGER
    ensures var r := OnMessage(c, CREATOR, MAKES_CPP, PLENTY, START, false);
      r == Stop(Success, PLENTY - CPP_CONTRACT_CREATION_COST, RegisterContract(START, CREATED, 5), false)
  {
    var g := PLENTY - CPP_CONTRACT_CREATION_COST;
    assert RunScript(c, false, MANAGER, Done(HALT), g, RegisterContract(START, CREATED, 5), false)
        == Stop(Success, g, RegisterContract(START, CREATED, 5), false);
    assert RunScript(c, false, MANAGER, MAKES_CPP.body, g, START, false)
        == Stop(Success, g, RegisterContract(START, CREATED, 5), false);
    assert CallCpp(c, MANAGER, MAKES_CPP, PLENTY, START, false)
        == Stop(Success, g, RegisterContract(START, CREATED, 5), false);
  }

  lemma EvmMade(c: Config, w: World)
    ensures var r := OnMessage(c, CREATOR, MAKES_EVM, PLENTY, w, false);
      r.outcome.Success? && r.erased == {CREATED} && r.intact && !r.cppReverted && r.cppThrows == 0
  {
    var g := PLENTY - EVM_CONTRACT_CREATION_COST;
    assert RunScript(c, true, CREATED, Done(HALT), g, w, false) == Stop(Success, 0, w, false);
    assert {} + {CREATED} == {CREATED};
  }

  lemma Thrown(c: Config, w: World)
    requires c.precompiled == {} && AccountOf(w, CREATOR).contractType.Evm? && CREATED in w.contracts
    ensures var r := OnMessage(c, CREATOR, THROWS, PLENTY, w, false);
      r.outcome == Failure && r.world == Restored(c, w, {CREATED}) && !r.intact && !r.cppReverted
      && r.erased == {CREATED}
  {
    EvmMade(c, w);
    var n := OnMessage(c, CREATOR, MAKES_EVM, PLENTY, w, false);
    var fail := Done(Halt(Failure, 0));
    assert RunScript(c, true, CREATOR, fail, PLENTY, n.world, false) == Stop(Failure, 0, n.world, false);
    var b := RunScript(c, true, CREATOR, THROWS.body, PLENTY, w, false);
    assert b.outcome == Failure && b.erased == {CREATED} + {} == {CREATED} && !b.cppReverted;
    assert Dispatch(c, CREATOR, THROWS, PLENTY, w, false) == b;
  }

  /** Both ways the tree succeeds, but popping the journal has erased the C++ contract that the tree made
      before and never took back. */
  lemma ContractLost(c: Config, sender: Address)
    requires c.precompiled == {} && c.contractManager == MANAGER
    ensures var copied, popped := OnMessage(Copying(c), sender, TREE, PLENTY, START, false),
                                  OnMessage(Popping(c), sender, TREE, PLENTY, START, false);
      && copied.outcome.Success? && CREATED in copied.world.contracts
      && popped.outcome.Success? && CREATED !in popped.world.contracts
    ensures AccountOf(RegisterContract(START, CREATED, 5), CREATOR).nonce == AccountOf(START, CREATOR).nonce
  {
    TreeRuns(Copying(c), sender);
    TreeRuns(Popping(c), sender);
  }

  lemma TreeRuns(c: Config, sender: Address)
    requires c.precompiled == {} && c.contractManager == MANAGER
    ensures var r := OnMessage(c, sender, TREE, PLENTY, START, false);
      r.outcome.Success? && r.world == Restored(c, RegisterContract(START, CREATED, 5), {CREATED})
  {
    CppMade(c);
    var made := RegisterContract(START, CREATED, 5);
    AccountOfSet(START.(contracts := START.contracts[CREATED := 5]), CREATED, AccountOf(START, CREATED).(nonce := 1), CREATOR);
    Thrown(c, made);
    var n := OnMessage(c, CREATOR, THROWS, PLENTY, made, false);
    assert RunScript(c, true, CREATOR, Done(HALT), PLENTY, n.world, false) == Stop(Success, 0, n.world, false);
    var inner := RunScript(c, true, CREATOR, TREE.body.onSuccess, PLENTY, made, false);
    assert inner.outcome.Success? && inner.world == n.world && !inner.cppReverted;
    var b := RunScript(c, true, CREATOR, TREE.body, PLENTY, START, false);
    assert b.outcome.Success? && b.world == n.world && !b.cppReverted;
    assert Dispatch(c, sender, TREE, PLENTY, START, false) == b;
  }
}
