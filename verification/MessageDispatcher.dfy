/** The dispatcher of messages and its C++ and EVM executors, over the journaling context. */
module MessageDispatcher {
  import opened Base
  import opened WorldState
  import opened Journal
  import opened Messages
  import opened ExecutionContext
  import Snapshot

  class Dispatcher {
    const config: Config
    const context: Context
    var cppContractReverted: bool

    constructor (config: Config, context: Context)
      ensures this.config == config && this.context == context && !cppContractReverted
    {
      this.config, this.context, cppContractReverted := config, context, false;
    }

    /** The engine did what the semantics says, and the journal can take it back as the semantics says. */
    twostate predicate Ran(r: Snapshot.Run, outcome: Outcome, gasLeft: nat)
      reads this, context, context.store
    {
      && outcome == r.outcome
      && gasLeft == r.gas
      && cppContractReverted == r.cppReverted
      && context.SteppedLosing(r.world, r.erased)
    }

    /** A message that throws puts the world back by popping the journal to its checkpoint. */
    method OnMessage(caller: Address, m: Message, gas: nat)
      returns (outcome: Outcome, gasLeft: nat)
      requires config.restore.Popped?
      modifies this, context, context.store
      ensures Ran(Snapshot.OnMessage(config, caller, m, gas, old(context.View()), old(cppContractReverted)), outcome, gasLeft)
      decreases m, 4
    {
      var checkpoint := |context.transactions|;
      outcome, gasLeft := Dispatch(caller, m, gas);
      if outcome.Success? && cppContractReverted {
        outcome := Failure;
      }
      if !outcome.Success? {
        ghost var r := Snapshot.Dispatch(config, caller, m, gas, old(context.View()), old(cppContractReverted));
        TakeBack(checkpoint, old(context.View()), old(context.transactions), r.erased);
      }
    }

    /** The checkpoint's destructor. */
    method TakeBack(checkpoint: nat, ghost w: World, ghost j: seq<Undo>, ghost lost: set<Address>)
      requires checkpoint == |j| && Grew(Without(w, lost), j, context.View(), context.transactions)
      modifies context, context.store
      ensures context.View() == Without(w, lost) && context.transactions == j
      ensures Grew(Without(w, lost), j, context.View(), context.transactions)
      ensures old(context.store.accounts).Keys <= context.store.accounts.Keys
    {
      context.RevertTo(checkpoint);
    }

    method Dispatch(caller: Address, m: Message, gas: nat)
      returns (outcome: Outcome, gasLeft: nat)
      requires config.restore.Popped?
      modifies this, context, context.store
      ensures Ran(Snapshot.Dispatch(config, caller, m, gas, old(context.View()), old(cppContractReverted)), outcome, gasLeft)
      decreases m, 3
    {
      match m
      case CallMessage(_, _, _, _, _, _, _, _, _) =>
        outcome, gasLeft := TransferAndCall(caller, m, gas);
      case EvmCreate(_, _, _, _, _, _, _) =>
        outcome, gasLeft := CreateEvm(caller, m, gas);
      case CppCreate(_, _) =>
        outcome, gasLeft := CreateCpp(caller, m, gas);
    }

    method TransferAndCall(caller: Address, m: Message, gas: nat)
      returns (outcome: Outcome, gasLeft: nat)
      requires m.CallMessage?
      requires config.restore.Popped?
      modifies this, context, context.store
      ensures Ran(Snapshot.Dispatch(config, caller, m, gas, old(context.View()), old(cppContractReverted)), outcome, gasLeft)
      decreases m, 2
    {
      var to := if m.kind.DelegateCall? then caller else m.to;
      var value := ValueMoved(m);
      if value > 0 {
        var ok := context.TransferBalance(caller, to, value);
        if !ok {
          return Failure, gas;
        }
      }
      ghost var w, j := context.View(), context.transactions;
      outcome, gasLeft := DispatchCall(caller, to, m, gas);
      ghost var r := Snapshot.DispatchCall(config, caller, to, m, gas, w, old(cppContractReverted));
      GrewThenLosing(old(context.View()), old(context.transactions), w, j, context.View(), context.transactions, r.erased);
    }

    method DispatchCall(caller: Address, to: Address, m: Message, gas: nat)
      returns (outcome: Outcome, gasLeft: nat)
      requires m.CallMessage?
      requires config.restore.Popped?
      modifies this, context, context.store
      ensures Ran(Snapshot.DispatchCall(config, caller, to, m, gas, old(context.View()), old(cppContractReverted)), outcome, gasLeft)
      decreases m, 1
    {
      if to in config.precompiled {
        outcome, gasLeft := CallPrecompiled(m, gas);
        return;
      }
      var account := context.GetAccount(if m.kind.DelegateCall? then m.codeAddress else to);
      match account.contractType
      case Cpp =>
        outcome, gasLeft := DispatchCppCall(to, m, gas);
      case Evm =>
        outcome, gasLeft := RunScript(true, to, m.body, gas);
      case NotAContract =>
        return if m.encoded && m.emptyInput then Success else Failure, gas;
    }

    /** Whatever the C++ contract throws is remembered for the rest of the execution. */
    method DispatchCppCall(to: Address, m: Message, gas: nat)
      returns (outcome: Outcome, gasLeft: nat)
      requires m.CallMessage?
      requires config.restore.Popped?
      modifies this, context, context.store
      ensures var r := Snapshot.CallCpp(config, to, m, gas, old(context.View()), old(cppContractReverted));
        Ran(if r.outcome.Success? then r else r.(cppReverted := true), outcome, gasLeft)
      decreases m, 1, 0
    {
      outcome, gasLeft := CallCpp(to, m, gas);
      if !outcome.Success? {
        cppContractReverted := true;
      }
    }

    /** A precompiled contract only computes: what it answers is part of the message. */
    method CallPrecompiled(m: Message, gas: nat) returns (outcome: Outcome, gasLeft: nat)
      requires m.CallMessage?
      ensures outcome == if m.kind.DelegateCall? then Failure else if gas < CPP_CONTRACT_CALL_COST then OutOfGas
                         else m.native.outcome
      ensures gasLeft == if m.kind.DelegateCall? then gas else if gas < CPP_CONTRACT_CALL_COST then 0
                         else Snapshot.Min(m.native.gasLeft, gas - CPP_CONTRACT_CALL_COST)
    {
      if m.kind.DelegateCall? {
        return Failure, gas;
      }
      if gas < CPP_CONTRACT_CALL_COST {
        return OutOfGas, 0;
      }
      return m.native.outcome, Snapshot.Min(m.native.gasLeft, gas - CPP_CONTRACT_CALL_COST);
    }

    method CallCpp(to: Address, m: Message, gas: nat)
      returns (outcome: Outcome, gasLeft: nat)
      requires m.CallMessage?
      requires config.restore.Popped?
      modifies this, context, context.store
      ensures Ran(Snapshot.CallCpp(config, to, m, gas, old(context.View()), old(cppContractReverted)), outcome, gasLeft)
      decreases m, 0
    {
      if m.kind.DelegateCall? {
        return Failure, gas;
      }
      var cost := if m.encoded && to == config.contractManager then CPP_CONTRACT_CREATION_COST else CPP_CONTRACT_CALL_COST;
      if gas < cost {
        return OutOfGas, 0;
      }
      if to !in context.store.contracts {
        return Failure, gas - cost;
      }
      outcome, gasLeft := RunScript(false, to, m.body, gas - cost);
    }

    method CreateEvm(caller: Address, m: Message, gas: nat)
      returns (outcome: Outcome, gasLeft: nat)
      requires m.EvmCreate?
      requires config.restore.Popped?
      modifies this, context, context.store
      ensures Ran(Snapshot.Dispatch(config, caller, m, gas, old(context.View()), old(cppContractReverted)), outcome, gasLeft)
      decreases m, 1
    {
      if gas < EVM_CONTRACT_CREATION_COST {
        return OutOfGas, 0;
      }
      outcome, gasLeft := RunScript(true, m.contractAddress, m.body, gas - EVM_CONTRACT_CREATION_COST);
      if outcome.Success? {
        ghost var w, j := context.View(), context.transactions;
        FinishCreate(caller, m);
        GrewLosing(old(context.View()), old(context.transactions), w, j, context.View(), context.transactions,
                   Snapshot.RunScript(config, true, m.contractAddress, m.body, gas - EVM_CONTRACT_CREATION_COST,
                                      old(context.View()), old(cppContractReverted)).erased, {m.contractAddress});
      }
    }

    method FinishCreate(caller: Address, m: Message)
      requires m.EvmCreate?
      modifies context, context.store
      ensures context.SteppedLosing(Snapshot.FinishCreate(old(context.View()), caller, m), {m.contractAddress})
    {
      Deploy(m.contractAddress, m.value, m.codeHash, m.code);
      if !m.salted {
        ghost var w, j := context.View(), context.transactions;
        BumpContractNonce(caller);
        GrewLosingThen(old(context.View()), old(context.transactions), w, j, context.View(), context.transactions, {m.contractAddress});
      }
    }

    method CreateCpp(caller: Address, m: Message, gas: nat)
      returns (outcome: Outcome, gasLeft: nat)
      requires m.CppCreate?
      requires config.restore.Popped?
      modifies this, context, context.store
      ensures Ran(Snapshot.Dispatch(config, caller, m, gas, old(context.View()), old(cppContractReverted)), outcome, gasLeft)
      decreases m, 1
    {
      if gas < CPP_CONTRACT_CREATION_COST {
        return OutOfGas, 0;
      }
      if config.contractManager !in context.store.contracts {
        return Failure, gas - CPP_CONTRACT_CREATION_COST;
      }
      outcome, gasLeft := RunScript(false, config.contractManager, m.body, gas - CPP_CONTRACT_CREATION_COST);
      if outcome.Success? {
        ghost var w, j := context.View(), context.transactions;
        BumpContractNonce(caller);
        GrewLosingThen(old(context.View()), old(context.transactions), w, j, context.View(), context.transactions,
          Snapshot.RunScript(config, false, config.contractManager, m.body, gas - CPP_CONTRACT_CREATION_COST,
                             old(context.View()), old(cppContractReverted)).erased);
      }
    }

    /** Runs contract code step by step; an EVM frame swallows or passes on the failure of a nested message. */
    method RunScript(evm: bool, self: Address, s: Script, gas: nat)
      returns (outcome: Outcome, gasLeft: nat)
      requires config.restore.Popped?
      modifies this, context, context.store
      ensures Ran(Snapshot.RunScript(config, evm, self, s, gas, old(context.View()), old(cppContractReverted)), outcome, gasLeft)
      decreases s
    {
      match s
      case Done(halt) =>
        return halt.outcome, if evm then Snapshot.Min(halt.gasLeft, gas) else gas;
      case Nested(m, onSuccess, onFailure) =>
        ghost var lost := Snapshot.OnMessage(
          config, self, m, if evm then m.gas else gas, context.View(), cppContractReverted).erased;
        var result, left := OnMessage(self, m, if evm then m.gas else gas);
        ghost var w, j := context.View(), context.transactions;
        ghost var rest := Snapshot.RunScript(
          config, evm, self, if result.Success? then onSuccess else onFailure, if evm then gas else left,
          w, cppContractReverted);
        outcome, gasLeft := RunScript(
          evm, self, if result.Success? then onSuccess else onFailure, if evm then gas else left);
        GrewLosing(old(context.View()), old(context.transactions), w, j, context.View(), context.transactions, lost, rest.erased);
      case Touch(_, _) =>
        outcome, gasLeft := RunStep(evm, self, s, gas);
      case Store(_, _, _) =>
        outcome, gasLeft := RunStep(evm, self, s, gas);
      case Emit(_, _) =>
        outcome, gasLeft := RunStep(evm, self, s, gas);
      case AddContract(_, _, _) =>
        outcome, gasLeft := RunStep(evm, self, s, gas);
    }

    method RunStep(evm: bool, self: Address, s: Script, gas: nat)
      returns (outcome: Outcome, gasLeft: nat)
      requires !s.Done? && !s.Nested?
      requires config.restore.Popped?
      modifies this, context, context.store
      ensures Ran(Snapshot.RunScript(config, evm, self, s, gas, old(context.View()), old(cppContractReverted)), outcome, gasLeft)
      decreases s, 0
    {
      match s {
        case Touch(a, _) =>
          var _ := context.GetAccount(a);
        case Store(slot, data, _) =>
          context.StoreSlot(self, slot, data);
        case Emit(payload, _) =>
          context.AddEvent(self, payload);
        case AddContract(a, instance, _) =>
          var ok := context.AddContract(a, instance);
          if !ok {
            return Failure, gas;
          }
      }
      ghost var w, j := context.View(), context.transactions;
      ghost var rest := Snapshot.RunScript(config, evm, self, s.next, gas, w, cppContractReverted);
      outcome, gasLeft := RunScript(evm, self, s.next, gas);
      GrewThenLosing(old(context.View()), old(context.transactions), w, j, context.View(), context.transactions, rest.erased);
    }

    /** Turns an account into an EVM contract. The journal entry that announcing it pushes takes a C++
        contract at its address along. */
    method Deploy(a: Address, value: nat, codeHash: Hash, code: Bytes)
      modifies context, context.store
      ensures context.SteppedLosing(Snapshot.Deploy(old(context.View()), a, value, codeHash, code), {a})
    {
      var _ := context.GetAccount(a);
      var shared := context.CheckEvmContract(codeHash, code);
      ghost var w, j := context.View(), context.transactions;
      WriteContract(a, value, codeHash, shared);
      GrewTransitive(old(context.View()), old(context.transactions), w, j, context.View(), context.transactions);
      w, j := context.View(), context.transactions;
      Announce(a);
      GrewThenLosing(old(context.View()), old(context.transactions), w, j, context.View(), context.transactions, {a});
    }

    method Announce(a: Address)
      modifies context, context.store
      ensures context.SteppedLosing(Snapshot.Announce(old(context.View()), a, None), {a})
    {
      AnnounceUndone(Without(context.View(), {a}), context.transactions, context.View(), a, None);
      context.NotifyNewContract(a, None);
    }

    method WriteContract(a: Address, value: nat, codeHash: Hash, code: Bytes)
      modifies context, context.store
      ensures context.Stepped(Snapshot.WriteContract(old(context.View()), a, value, codeHash, code))
    {
      context.SetNonce(a, 1);
      ghost var w, j := context.View(), context.transactions;
      context.SetCode(a, code, codeHash);
      GrewTransitive(old(context.View()), old(context.transactions), w, j, context.View(), context.transactions);
      w, j := context.View(), context.transactions;
      context.SetContractType(a, Evm);
      GrewTransitive(old(context.View()), old(context.transactions), w, j, context.View(), context.transactions);
      w, j := context.View(), context.transactions;
      context.Credit(a, value);
      GrewTransitive(old(context.View()), old(context.transactions), w, j, context.View(), context.transactions);
    }

    method BumpContractNonce(a: Address)
      modifies context, context.store
      ensures context.Stepped(Snapshot.BumpContractNonce(old(context.View()), a))
    {
      var account := context.GetAccount(a);
      if !account.contractType.NotAContract? {
        context.SetNonce(a, Wrap64(account.nonce + 1));
      }
    }
  }
}
