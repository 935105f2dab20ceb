/** What holds of the world between messages of every run, with any mix of commits and reverts. */
module WorldInvariant {
  import opened Base
  import opened WorldState
  import opened Messages
  import opened Snapshot
  import opened Balances

  /** Account `x` of an EVM contract runs the code the shared table holds under its code hash, and,
      when failures restore a copy, an account of a C++ contract at `a` has a contract object. */
  predicate Backed(c: Config, w: World, a: Address, x: Account) {
    && (x.contractType.Evm? ==> x.codeHash in w.evmContracts && x.code == Some(w.evmContracts[x.codeHash]))
    && (c.restore.Copied? && x.contractType.Cpp? ==> a in w.contracts)
  }

  predicate Sane(c: Config, w: World) {
    && (forall a :: a in w.accounts ==> Backed(c, w, a, w.accounts[a]))
    && (forall i :: 0 <= i < |w.events| ==> w.events[i].logIndex == i)
  }

  lemma SetAccountSane(c: Config, w: World, a: Address, x: Account)
    requires Sane(c, w) && Backed(c, w, a, x)
    ensures Sane(c, SetAccount(w, a, x))
  {
    var after := SetAccount(w, a, x);
    forall b | b in after.accounts
      ensures Backed(c, after, b, after.accounts[b])
    {
      AccountOfSet(w, a, x, b);
      assert b != a ==> Backed(c, w, b, w.accounts[b]);
    }
  }

  lemma TransferSane(c: Config, w: World, from: Address, to: Address, amount: nat)
    requires Sane(c, w) && amount <= AccountOf(w, from).balance
    ensures Sane(c, TransferFunds(w, from, to, amount))
  {
    if amount > 0 {
      BalanceSane(c, w, from, AccountOf(w, from).balance - amount);
      var debited := SetBalance(w, from, AccountOf(w, from).balance - amount);
      BalanceSane(c, debited, to, Wrap256(AccountOf(debited, to).balance + amount));
    }
  }

  lemma BalanceSane(c: Config, w: World, a: Address, balance: nat)
    requires Sane(c, w)
    ensures Sane(c, SetBalance(w, a, balance))
  {
    SetAccountSane(c, w, a, AccountOf(w, a).(balance := balance));
  }

  lemma BumpSane(c: Config, w: World, a: Address)
    requires Sane(c, w)
    ensures Sane(c, BumpContractNonce(w, a))
  {
    var account := AccountOf(w, a);
    SetAccountSane(c, w, a, account.(nonce := Wrap64(account.nonce + 1)));
  }

  /** Sharing code never replaces what another contract with the same code hash runs. */
  lemma ShareCodeSane(c: Config, w: World, codeHash: Hash, code: Bytes)
    requires Sane(c, w)
    ensures Sane(c, ShareCode(w, codeHash, code))
  {
    var after := ShareCode(w, codeHash, code);
    forall a | a in after.accounts
      ensures Backed(c, after, a, after.accounts[a])
    {
      assert Backed(c, w, a, w.accounts[a]);
    }
  }

  lemma CreateSane(c: Config, w: World, caller: Address, m: Message)
    requires m.EvmCreate? && Sane(c, w)
    ensures Sane(c, FinishCreate(w, caller, m))
  {
    ShareCodeSane(c, w, m.codeHash, m.code);
    var shared := ShareCode(w, m.codeHash, m.code);
    var bytes := shared.evmContracts[m.codeHash];
    WriteContractFlat(shared, m.contractAddress, m.value, m.codeHash, bytes);
    SetAccountSane(c, shared, m.contractAddress, ContractAccount(shared, m.contractAddress, m.value, m.codeHash, bytes));
    AnnounceSane(c, WriteContract(shared, m.contractAddress, m.value, m.codeHash, bytes), m.contractAddress, None);
    BumpSane(c, Deploy(w, m.contractAddress, m.value, m.codeHash, m.code), caller);
  }

  lemma AnnounceSane(c: Config, w: World, a: Address, instance: Option<nat>)
    requires Sane(c, w)
    ensures Sane(c, Announce(w, a, instance))
  {
    assert forall b :: b in w.accounts ==> Backed(c, w, b, w.accounts[b]);
  }

  lemma RegisterSane(c: Config, w: World, a: Address, instance: nat)
    requires Sane(c, w)
    ensures Sane(c, RegisterContract(w, a, instance))
  {
    var w1 := w.(contracts := w.contracts[a := instance]);
    assert Sane(c, w1) by {
      assert forall b :: b in w.accounts ==> Backed(c, w, b, w.accounts[b]);
    }
    SetAccountSane(c, w1, a, AccountOf(w1, a).(nonce := 1));
    var w2 := SetNonce(w1, a, 1);
    AccountOfSet(w1, a, AccountOf(w1, a).(nonce := 1), a);
    SetAccountSane(c, w2, a, AccountOf(w2, a).(contractType := Cpp));
    AnnounceSane(c, SetContractType(w2, a, Cpp), a, Some(instance));
  }

  lemma LogSane(c: Config, w: World, emitter: Address, payload: Bytes)
    requires Sane(c, w)
    ensures Sane(c, LogEvent(w, emitter, payload))
  {
    assert forall b :: b in w.accounts ==> Backed(c, w, b, w.accounts[b]);
  }

  lemma RestoredSane(c: Config, w: World, erased: set<Address>)
    requires Sane(c, w)
    ensures Sane(c, Restored(c, w, erased))
  {
    assert forall b :: b in w.accounts ==> Backed(c, w, b, w.accounts[b]);
  }

  /** Every message keeps the invariant, whether it returns or throws. */
  lemma {:induction false} MessageSane(
    c: Config, caller: Address, m: Message, gas: nat, w: World, cppReverted: bool)
    requires Sane(c, w)
    ensures Sane(c, OnMessage(c, caller, m, gas, w, cppReverted).world)
    decreases m, 2
  {
    RestoredSane(c, w, Dispatch(c, caller, m, gas, w, cppReverted).erased);
    match m
    case CallMessage(_, _, _, _, _, _, _, _, body) =>
      if AccountOf(w, caller).balance >= ValueMoved(m) {
        var to := if m.kind.DelegateCall? then caller else m.to;
        TransferSane(c, w, caller, to, ValueMoved(m));
        CallSane(c, caller, to, m, gas, TransferFunds(w, caller, to, ValueMoved(m)), cppReverted);
      }
    case EvmCreate(_, a, _, _, _, _, body) =>
      if gas >= EVM_CONTRACT_CREATION_COST {
        ScriptSane(c, true, a, body, gas - EVM_CONTRACT_CREATION_COST, w, cppReverted);
        CreateSane(c, RunScript(c, true, a, body, gas - EVM_CONTRACT_CREATION_COST, w, cppReverted).world, caller, m);
      }
    case CppCreate(_, body) =>
      if gas >= CPP_CONTRACT_CREATION_COST {
        ScriptSane(c, false, c.contractManager, body, gas - CPP_CONTRACT_CREATION_COST, w, cppReverted);
        BumpSane(c, RunScript(
          c, false, c.contractManager, body, gas - CPP_CONTRACT_CREATION_COST, w, cppReverted).world, caller);
      }
  }

  lemma {:induction false} CallSane(
    c: Config, caller: Address, to: Address, m: Message, gas: nat, w: World, cppReverted: bool)
    requires m.CallMessage? && Sane(c, w)
    ensures Sane(c, DispatchCall(c, caller, to, m, gas, w, cppReverted).world)
    decreases m, 1
  {
    if to !in c.precompiled {
      match AccountOf(w, if m.kind.DelegateCall? then m.codeAddress else to).contractType
      case Cpp =>
        var cost := if m.encoded && to == c.contractManager then CPP_CONTRACT_CREATION_COST else CPP_CONTRACT_CALL_COST;
        if gas >= cost {
          ScriptSane(c, false, to, m.body, gas - cost, w, cppReverted);
        }
      case Evm => ScriptSane(c, true, to, m.body, gas, w, cppReverted);
      case NotAContract =>
    }
  }

  lemma {:induction false} ScriptSane(
    c: Config, evm: bool, self: Address, s: Script, gas: nat, w: World, cppReverted: bool)
    requires Sane(c, w)
    ensures Sane(c, RunScript(c, evm, self, s, gas, w, cppReverted).world)
    decreases s
  {
    match s
    case Done(_) =>
    case Touch(_, next) => ScriptSane(c, evm, self, next, gas, w, cppReverted);
    case Store(slot, data, next) =>
      var w1 := w.(storage := w.storage[(self, slot) := data]);
      assert Sane(c, w1) by {
        assert forall b :: b in w.accounts ==> Backed(c, w, b, w.accounts[b]);
      }
      ScriptSane(c, evm, self, next, gas, w1, cppReverted);
    case Emit(payload, next) =>
      LogSane(c, w, self, payload);
      ScriptSane(c, evm, self, next, gas, LogEvent(w, self, payload), cppReverted);
    case AddContract(a, instance, next) =>
      if a !in w.contracts {
        RegisterSane(c, w, a, instance);
        ScriptSane(c, evm, self, next, gas, RegisterContract(w, a, instance), cppReverted);
      }
    case Nested(m, onSuccess, onFailure) =>
      var g := if evm then m.gas else gas;
      MessageSane(c, self, m, g, w, cppReverted);
      var n := OnMessage(c, self, m, g, w, cppReverted);
      ScriptSane(c, evm, self, if n.outcome.Success? then onSuccess else onFailure,
                 if evm then gas else n.gas, n.world, n.cppReverted);
  }

  /** A whole execution keeps the invariant. */
  lemma ExecuteSane(c: Config, caller: Address, m: Message, gas: nat, w: World)
    requires Sane(c, w)
    ensures Sane(c, Settle(Execute(c, caller, m, gas, w).world))
  {
    RestoredSane(c, w, {});
    if gas >= CONTRACT_EXECUTION_COST {
      MessageSane(c, caller, m, gas - CONTRACT_EXECUTION_COST, w, false);
    }
    SettleSane(c, Execute(c, caller, m, gas, w).world);
  }

  lemma SettleSane(c: Config, w: World)
    requires Sane(c, w)
    ensures Sane(c, Settle(w))
  {
    assert forall b :: b in w.accounts ==> Backed(c, w, b, w.accounts[b]);
  }
}
