/** What every message keeps, for any tree of nested messages with failures caught at any level. */
module MessageLaws {
  import opened Base
  import opened WorldState
  import opened Messages
  import opened Snapshot
  import opened Balances

  /** The most value the contract creations of a message can credit. */
  function MintBound(m: Message): nat
    decreases m
  {
    match m
    case CallMessage(_, _, _, _, _, _, _, _, body) => MintBoundScript(body)
    case EvmCreate(_, _, value, _, _, _, body) => value + MintBoundScript(body)
    case CppCreate(_, body) => MintBoundScript(body)
  }

  function MintBoundScript(s: Script): nat
    decreases s
  {
    match s
    case Done(_) => 0
    case Touch(_, next) => MintBoundScript(next)
    case Store(_, _, next) => MintBoundScript(next)
    case Emit(_, next) => MintBoundScript(next)
    case AddContract(_, _, next) => MintBoundScript(next)
    case Nested(m, ok, fail) => MintBound(m) + MintBoundScript(ok) + MintBoundScript(fail)
  }

  predicate Plain(c: Config, k: Address, w: World) {
    k != c.contractManager && AccountOf(w, k).contractType == NotAContract
  }

  // ---------- Accounts that are not contracts stay what they are ----------

  /** Account `k` is still a plain account with its nonce. */
  predicate Stays(k: Address, w: World, after: World) {
    && AccountOf(after, k).contractType == AccountOf(w, k).contractType == NotAContract
    && AccountOf(after, k).nonce == AccountOf(w, k).nonce
  }

  /** A message never changes the nonce or the kind of an account that is not a contract. */
  lemma {:induction false} MessageStays(
    c: Config, caller: Address, m: Message, gas: nat, w: World, cppReverted: bool, k: Address)
    requires Plain(c, k, w) && Avoids(m, k)
    requires caller == k ==> !(m.CallMessage? && m.kind.DelegateCall?)
    ensures Stays(k, w, OnMessage(c, caller, m, gas, w, cppReverted).world)
    decreases m, 4
  {
    DispatchStays(c, caller, m, gas, w, cppReverted, k);
  }

  lemma TransferStays(w: World, from: Address, to: Address, amount: nat, k: Address)
    requires AccountOf(w, k).contractType == NotAContract && amount <= AccountOf(w, from).balance
    ensures Stays(k, w, TransferFunds(w, from, to, amount))
  {
  }

  lemma CreateStays(w: World, caller: Address, m: Message, k: Address)
    requires m.EvmCreate? && m.contractAddress != k && AccountOf(w, k).contractType == NotAContract
    ensures Stays(k, w, FinishCreate(w, caller, m))
    ensures AccountOf(FinishCreate(w, caller, m), k).balance == AccountOf(w, k).balance
  {
    var shared := ShareCode(w, m.codeHash, m.code);
    var bytes := shared.evmContracts[m.codeHash];
    WriteContractFlat(shared, m.contractAddress, m.value, m.codeHash, bytes);
    var x := ContractAccount(shared, m.contractAddress, m.value, m.codeHash, bytes);
    AccountOfSet(shared, m.contractAddress, x, k);
  }

  lemma {:induction false} DispatchStays(
    c: Config, caller: Address, m: Message, gas: nat, w: World, cppReverted: bool, k: Address)
    requires Plain(c, k, w) && Avoids(m, k)
    requires caller == k ==> !(m.CallMessage? && m.kind.DelegateCall?)
    ensures Stays(k, w, Dispatch(c, caller, m, gas, w, cppReverted).world)
    decreases m, 3
  {
    match m
    case CallMessage(_, _, _, _, _, _, _, _, body) =>
      if AccountOf(w, caller).balance >= ValueMoved(m) {
        var to := if m.kind.DelegateCall? then caller else m.to;
        TransferStays(w, caller, to, ValueMoved(m), k);
        CallStays(c, caller, to, m, gas, TransferFunds(w, caller, to, ValueMoved(m)), cppReverted, k);
      }
    case EvmCreate(_, a, value, codeHash, code, _, body) =>
      if gas >= EVM_CONTRACT_CREATION_COST {
        ScriptStays(c, true, a, body, gas - EVM_CONTRACT_CREATION_COST, w, cppReverted, k);
        CreateStays(RunScript(c, true, a, body, gas - EVM_CONTRACT_CREATION_COST, w, cppReverted).world, caller, m, k);
      }
    case CppCreate(_, body) =>
      if gas >= CPP_CONTRACT_CREATION_COST {
        ScriptStays(c, false, c.contractManager, body, gas - CPP_CONTRACT_CREATION_COST, w, cppReverted, k);
      }
  }

  lemma {:induction false} CallStays(
    c: Config, caller: Address, to: Address, m: Message, gas: nat, w: World, cppReverted: bool, k: Address)
    requires m.CallMessage? && Plain(c, k, w) && Avoids(m, k)
    requires m.kind.DelegateCall? ==> to != k
    ensures Stays(k, w, DispatchCall(c, caller, to, m, gas, w, cppReverted).world)
    decreases m, 1
  {
    if to !in c.precompiled {
      match AccountOf(w, if m.kind.DelegateCall? then m.codeAddress else to).contractType
      case Cpp => CppStays(c, to, m, gas, w, cppReverted, k);
      case Evm => ScriptStays(c, true, to, m.body, gas, w, cppReverted, k);
      case NotAContract =>
    }
  }

  lemma {:induction false} CppStays(
    c: Config, to: Address, m: Message, gas: nat, w: World, cppReverted: bool, k: Address)
    requires m.CallMessage? && Plain(c, k, w) && Avoids(m, k) && to != k
    ensures Stays(k, w, CallCpp(c, to, m, gas, w, cppReverted).world)
    decreases m, 0
  {
    var cost := if m.encoded && to == c.contractManager then CPP_CONTRACT_CREATION_COST else CPP_CONTRACT_CALL_COST;
    if gas >= cost {
      ScriptStays(c, false, to, m.body, gas - cost, w, cppReverted, k);
    }
  }

  lemma {:induction false} ScriptStays(
    c: Config, evm: bool, self: Address, s: Script, gas: nat, w: World, cppReverted: bool, k: Address)
    requires Plain(c, k, w) && AvoidsScript(s, k) && self != k
    ensures Stays(k, w, RunScript(c, evm, self, s, gas, w, cppReverted).world)
    decreases s
  {
    match s
    case Done(_) =>
    case Touch(_, next) => ScriptStays(c, evm, self, next, gas, w, cppReverted, k);
    case Store(slot, data, next) =>
      ScriptStays(c, evm, self, next, gas, w.(storage := w.storage[(self, slot) := data]), cppReverted, k);
    case Emit(payload, next) => ScriptStays(c, evm, self, next, gas, LogEvent(w, self, payload), cppReverted, k);
    case AddContract(a, instance, next) =>
      if a !in w.contracts {
        ScriptStays(c, evm, self, next, gas, RegisterContract(w, a, instance), cppReverted, k);
      }
    case Nested(m, onSuccess, onFailure) =>
      var g := if evm then m.gas else gas;
      MessageStays(c, self, m, g, w, cppReverted, k);
      var n := OnMessage(c, self, m, g, w, cppReverted);
      ScriptStays(c, evm, self, if n.outcome.Success? then onSuccess else onFailure,
                  if evm then gas else n.gas, n.world, n.cppReverted, k);
  }

  // ---------- The sum of balances ----------

  /** Rich accounts, whose balances do not count: plain ones on which no contract is placed. */
  ghost predicate Apart(c: Config, rich: set<Address>, w: World) {
    forall k :: k in rich ==> Plain(c, k, w)
  }

  ghost predicate AvoidsAll(m: Message, rich: set<Address>) {
    forall k :: k in rich ==> Avoids(m, k)
  }

  ghost predicate AvoidsAllScript(s: Script, rich: set<Address>) {
    forall k :: k in rich ==> AvoidsScript(s, k)
  }

  /** Without rich accounts the sum moves by exactly what surviving creations minted; otherwise it may
      fall behind by what rich accounts were sent. */
  ghost predicate Conserves(rich: set<Address>, w: World, bound: nat, r: Run) {
    && Funds(rich, r.world) <= Funds(rich, w) + r.minted && r.minted <= bound
    && (rich == {} ==> Funds(rich, r.world) == Funds(rich, w) + r.minted)
  }

  /** Whatever a message does, the sum of all balances grows by exactly the value that its surviving
      contract creations credited: transfers conserve it, failures restore it. */
  lemma MessageConserves(c: Config, caller: Address, m: Message, gas: nat, w: World, cppReverted: bool)
    requires Total(w) + MintBound(m) < TWO_TO_256
    ensures var r := OnMessage(c, caller, m, gas, w, cppReverted);
      Total(r.world) == Total(w) + r.minted && r.minted <= MintBound(m)
  {
    FundsOfAll(w);
    FundsOfAll(OnMessage(c, caller, m, gas, w, cppReverted).world);
    MessageFunds(c, {}, caller, m, gas, w, cppReverted);
  }

  /** The balances outside of a set of rich accounts stay bounded, however much the rich ones hold. */
  lemma {:induction false} MessageFunds(
    c: Config, rich: set<Address>, caller: Address, m: Message, gas: nat, w: World, cppReverted: bool)
    requires Apart(c, rich, w) && AvoidsAll(m, rich) && caller !in rich && Funds(rich, w) + MintBound(m) < TWO_TO_256
    ensures Conserves(rich, w, MintBound(m), OnMessage(c, caller, m, gas, w, cppReverted))
    decreases m, 4
  {
    DispatchFunds(c, rich, caller, m, gas, w, cppReverted);
  }

  lemma {:induction false} DispatchFunds(
    c: Config, rich: set<Address>, caller: Address, m: Message, gas: nat, w: World, cppReverted: bool)
    requires Apart(c, rich, w) && AvoidsAll(m, rich) && caller !in rich && Funds(rich, w) + MintBound(m) < TWO_TO_256
    ensures Conserves(rich, w, MintBound(m), Dispatch(c, caller, m, gas, w, cppReverted))
    decreases m, 3
  {
    match m
    case CallMessage(_, _, _, _, _, _, _, _, body) =>
      if AccountOf(w, caller).balance >= ValueMoved(m) {
        MoveFunds(c, rich, caller, if m.kind.DelegateCall? then caller else m.to, m, gas, w, cppReverted);
      }
    case EvmCreate(_, a, value, codeHash, code, _, body) => EvmCreateFunds(c, rich, caller, m, gas, w, cppReverted);
    case CppCreate(_, body) =>
      if gas >= CPP_CONTRACT_CREATION_COST {
        CppCreateFunds(c, rich, caller, m, gas - CPP_CONTRACT_CREATION_COST, w, cppReverted);
      }
  }

  lemma {:induction false} EvmCreateFunds(
    c: Config, rich: set<Address>, caller: Address, m: Message, gas: nat, w: World, cppReverted: bool)
    requires m.EvmCreate? && Apart(c, rich, w) && AvoidsAll(m, rich) && Funds(rich, w) + MintBound(m) < TWO_TO_256
    ensures Conserves(rich, w, MintBound(m), Dispatch(c, caller, m, gas, w, cppReverted))
    decreases m, 2
  {
    if gas >= EVM_CONTRACT_CREATION_COST {
      CreateFunds(c, rich, caller, m, gas - EVM_CONTRACT_CREATION_COST, w, cppReverted);
    }
  }

  lemma {:induction false} MoveFunds(
    c: Config, rich: set<Address>, caller: Address, to: Address, m: Message, gas: nat, w: World, cppReverted: bool)
    requires m.CallMessage? && Apart(c, rich, w) && AvoidsAll(m, rich) && Funds(rich, w) + MintBound(m) < TWO_TO_256
    requires caller !in rich && (m.kind.DelegateCall? ==> to !in rich) && ValueMoved(m) <= AccountOf(w, caller).balance
    ensures Conserves(rich, w, MintBound(m),
      DispatchCall(c, caller, to, m, gas, TransferFunds(w, caller, to, ValueMoved(m)), cppReverted))
    decreases m, 2
  {
    FundsTransfer(rich, w, caller, to, ValueMoved(m));
    TransferApart(c, rich, w, caller, to, ValueMoved(m));
    CallFunds(c, rich, caller, to, m, gas, TransferFunds(w, caller, to, ValueMoved(m)), cppReverted);
  }

  lemma {:induction false} CppCreateFunds(
    c: Config, rich: set<Address>, caller: Address, m: Message, gas: nat, w: World, cppReverted: bool)
    requires m.CppCreate? && Apart(c, rich, w) && AvoidsAll(m, rich) && Funds(rich, w) + MintBound(m) < TWO_TO_256
    ensures var b := RunScript(c, false, c.contractManager, m.body, gas, w, cppReverted);
      && Conserves(rich, w, MintBound(m), b)
      && Funds(rich, BumpContractNonce(b.world, caller)) == Funds(rich, b.world)
    decreases m, 1
  {
    assert AvoidsAllScript(m.body, rich);
    ScriptFunds(c, rich, false, c.contractManager, m.body, gas, w, cppReverted);
    FundsBump(rich, RunScript(c, false, c.contractManager, m.body, gas, w, cppReverted).world, caller);
  }

  lemma TransferApart(c: Config, rich: set<Address>, w: World, from: Address, to: Address, amount: nat)
    requires Apart(c, rich, w) && amount <= AccountOf(w, from).balance
    ensures Apart(c, rich, TransferFunds(w, from, to, amount))
  {
    forall k | k in rich
      ensures Plain(c, k, TransferFunds(w, from, to, amount))
    {
      TransferStays(w, from, to, amount, k);
    }
  }

  lemma {:induction false} CreateFunds(
    c: Config, rich: set<Address>, caller: Address, m: Message, gas: nat, w: World, cppReverted: bool)
    requires m.EvmCreate? && Apart(c, rich, w) && AvoidsAll(m, rich) && Funds(rich, w) + MintBound(m) < TWO_TO_256
    ensures var b := RunScript(c, true, m.contractAddress, m.body, gas, w, cppReverted);
      && Conserves(rich, w, MintBoundScript(m.body), b)
      && Funds(rich, FinishCreate(b.world, caller, m)) == Funds(rich, b.world) + m.value
    decreases m, 1
  {
    assert AvoidsAllScript(m.body, rich) && m.contractAddress !in rich;
    ScriptFunds(c, rich, true, m.contractAddress, m.body, gas, w, cppReverted);
    var after := RunScript(c, true, m.contractAddress, m.body, gas, w, cppReverted).world;
    FundsDeploy(rich, after, m.contractAddress, m.value, m.codeHash, m.code);
    FundsBump(rich, Deploy(after, m.contractAddress, m.value, m.codeHash, m.code), caller);
  }

  lemma {:induction false} CallFunds(
    c: Config, rich: set<Address>, caller: Address, to: Address, m: Message, gas: nat, w: World, cppReverted: bool)
    requires m.CallMessage? && Apart(c, rich, w) && AvoidsAll(m, rich) && Funds(rich, w) + MintBound(m) < TWO_TO_256
    requires m.kind.DelegateCall? ==> to !in rich
    ensures Conserves(rich, w, MintBound(m), DispatchCall(c, caller, to, m, gas, w, cppReverted))
    decreases m, 1
  {
    if to !in c.precompiled {
      assert AvoidsAllScript(m.body, rich);
      match AccountOf(w, if m.kind.DelegateCall? then m.codeAddress else to).contractType
      case Cpp => CppFunds(c, rich, to, m, gas, w, cppReverted);
      case Evm => ScriptFunds(c, rich, true, to, m.body, gas, w, cppReverted);
      case NotAContract =>
    }
  }

  lemma {:induction false} CppFunds(
    c: Config, rich: set<Address>, to: Address, m: Message, gas: nat, w: World, cppReverted: bool)
    requires m.CallMessage? && Apart(c, rich, w) && AvoidsAllScript(m.body, rich) && to !in rich
    requires Funds(rich, w) + MintBound(m) < TWO_TO_256
    ensures Conserves(rich, w, MintBound(m), CallCpp(c, to, m, gas, w, cppReverted))
    decreases m, 0
  {
    var cost := if m.encoded && to == c.contractManager then CPP_CONTRACT_CREATION_COST else CPP_CONTRACT_CALL_COST;
    if gas >= cost {
      ScriptFunds(c, rich, false, to, m.body, gas - cost, w, cppReverted);
    }
  }

  lemma {:induction false} ScriptFunds(
    c: Config, rich: set<Address>, evm: bool, self: Address, s: Script, gas: nat, w: World, cppReverted: bool)
    requires Apart(c, rich, w) && AvoidsAllScript(s, rich) && self !in rich
    requires Funds(rich, w) + MintBoundScript(s) < TWO_TO_256
    ensures Conserves(rich, w, MintBoundScript(s), RunScript(c, evm, self, s, gas, w, cppReverted))
    decreases s
  {
    match s
    case Done(_) =>
    case Touch(_, next) =>
      assert AvoidsAllScript(next, rich);
      ScriptFunds(c, rich, evm, self, next, gas, w, cppReverted);
    case Store(slot, data, next) =>
      assert AvoidsAllScript(next, rich);
      ScriptFunds(c, rich, evm, self, next, gas, w.(storage := w.storage[(self, slot) := data]), cppReverted);
    case Emit(payload, next) =>
      assert AvoidsAllScript(next, rich);
      ScriptFunds(c, rich, evm, self, next, gas, LogEvent(w, self, payload), cppReverted);
    case AddContract(a, instance, next) =>
      if a !in w.contracts {
        RegisterFunds(c, rich, w, a, instance, s);
        ScriptFunds(c, rich, evm, self, next, gas, RegisterContract(w, a, instance), cppReverted);
      }
    case Nested(m, onSuccess, onFailure) =>
      var g := if evm then m.gas else gas;
      NestedFunds(c, rich, self, s, g, w, cppReverted);
      var n := OnMessage(c, self, m, g, w, cppReverted);
      ScriptFunds(c, rich, evm, self, if n.outcome.Success? then onSuccess else onFailure,
                  if evm then gas else n.gas, n.world, n.cppReverted);
  }

  lemma RegisterFunds(c: Config, rich: set<Address>, w: World, a: Address, instance: nat, s: Script)
    requires s.AddContract? && s.contractAddress == a && Apart(c, rich, w) && AvoidsAllScript(s, rich)
    ensures AvoidsAllScript(s.next, rich) && Apart(c, rich, RegisterContract(w, a, instance))
    ensures Funds(rich, RegisterContract(w, a, instance)) == Funds(rich, w)
  {
    FundsRegisterContract(rich, w, a, instance);
    forall k | k in rich
      ensures Plain(c, k, RegisterContract(w, a, instance))
    {
      assert Plain(c, k, w) && AvoidsScript(s, k);
    }
  }

  /** A nested message leaves the rich accounts plain for what follows it. */
  lemma {:induction false} NestedFunds(
    c: Config, rich: set<Address>, self: Address, s: Script, g: nat, w: World, cppReverted: bool)
    requires s.Nested? && Apart(c, rich, w) && AvoidsAllScript(s, rich) && self !in rich
    requires Funds(rich, w) + MintBound(s.message) < TWO_TO_256
    ensures var n := OnMessage(c, self, s.message, g, w, cppReverted);
      Conserves(rich, w, MintBound(s.message), n) && Apart(c, rich, n.world)
    ensures AvoidsAllScript(s.onSuccess, rich) && AvoidsAllScript(s.onFailure, rich)
    decreases s, 0
  {
    forall k | k in rich
      ensures Avoids(s.message, k) && AvoidsScript(s.onSuccess, k) && AvoidsScript(s.onFailure, k)
      ensures Plain(c, k, OnMessage(c, self, s.message, g, w, cppReverted).world)
    {
      assert Plain(c, k, w) && AvoidsScript(s, k);
      MessageStays(c, self, s.message, g, w, cppReverted, k);
    }
    MessageFunds(c, rich, self, s.message, g, w, cppReverted);
  }

  // ---------- Accounts that are not contracts are safe from everyone else's messages ----------

  /** Account `k` is still a plain account with its nonce, and lost at most `spend`. */
  predicate Spares(k: Address, spend: nat, w: World, after: World) {
    Stays(k, w, after) && AccountOf(after, k).balance + spend >= AccountOf(w, k).balance
  }

  function Spend(caller: Address, m: Message, k: Address): nat {
    if caller == k && m.CallMessage? then ValueMoved(m) else 0
  }

  /** No credit outside of the rich accounts wraps around while a message runs. */
  ghost predicate Room(c: Config, rich: set<Address>, m: Message, w: World) {
    Apart(c, rich, w) && AvoidsAll(m, rich) && Funds(rich, w) + MintBound(m) < TWO_TO_256
  }

  ghost predicate RoomScript(c: Config, rich: set<Address>, s: Script, w: World) {
    Apart(c, rich, w) && AvoidsAllScript(s, rich) && Funds(rich, w) + MintBoundScript(s) < TWO_TO_256
  }

  /** A message never lowers the balance, changes the nonce or the kind of an account that is not a
      contract, except that its sender pays the value it sends. */
  lemma {:induction false} MessageSpares(
    c: Config, rich: set<Address>, caller: Address, m: Message, gas: nat, w: World, cppReverted: bool, k: Address)
    requires Room(c, rich, m, w) && caller !in rich && k !in rich && Plain(c, k, w) && Avoids(m, k)
    requires caller == k ==> !(m.CallMessage? && m.kind.DelegateCall?)
    ensures Spares(k, Spend(caller, m, k), w, OnMessage(c, caller, m, gas, w, cppReverted).world)
    decreases m, 4
  {
    DispatchSpares(c, rich, caller, m, gas, w, cppReverted, k);
  }

  lemma TransferSpares(rich: set<Address>, w: World, from: Address, to: Address, amount: nat, k: Address)
    requires AccountOf(w, k).contractType == NotAContract && k !in rich && from !in rich
    requires amount <= AccountOf(w, from).balance && Funds(rich, w) < TWO_TO_256
    ensures Spares(k, if from == k then amount else 0, w, TransferFunds(w, from, to, amount))
  {
    if amount > 0 {
      DebitSpares(rich, w, from, amount, k);
      CreditSpares(rich, SetBalance(w, from, AccountOf(w, from).balance - amount), to, amount, k);
    }
  }

  lemma DebitSpares(rich: set<Address>, w: World, from: Address, amount: nat, k: Address)
    requires AccountOf(w, k).contractType == NotAContract && amount <= AccountOf(w, from).balance && from !in rich
    ensures var debited := SetBalance(w, from, AccountOf(w, from).balance - amount);
      Funds(rich, debited) + amount == Funds(rich, w) && Spares(k, if from == k then amount else 0, w, debited)
  {
    var sender := AccountOf(w, from);
    FundsSetAccount(rich, w, from, sender.(balance := sender.balance - amount));
    AccountOfSet(w, from, sender.(balance := sender.balance - amount), k);
  }

  lemma CreditSpares(rich: set<Address>, w: World, a: Address, amount: nat, k: Address)
    requires AccountOf(w, k).contractType == NotAContract && Funds(rich, w) + amount < TWO_TO_256 && k !in rich
    ensures Spares(k, 0, w, Credit(w, a, amount))
  {
    FundsCredit(rich, w, a, amount);
  }

  lemma {:induction false} DispatchSpares(
    c: Config, rich: set<Address>, caller: Address, m: Message, gas: nat, w: World, cppReverted: bool, k: Address)
    requires Room(c, rich, m, w) && caller !in rich && k !in rich && Plain(c, k, w) && Avoids(m, k)
    requires caller == k ==> !(m.CallMessage? && m.kind.DelegateCall?)
    ensures Spares(k, Spend(caller, m, k), w, Dispatch(c, caller, m, gas, w, cppReverted).world)
    decreases m, 3
  {
    match m
    case CallMessage(_, _, _, _, _, _, _, _, body) =>
      if AccountOf(w, caller).balance >= ValueMoved(m) {
        MoveSpares(c, rich, caller, if m.kind.DelegateCall? then caller else m.to, m, gas, w, cppReverted, k);
      }
    case EvmCreate(_, a, value, codeHash, code, _, body) => EvmCreateSpares(c, rich, caller, m, gas, w, cppReverted, k);
    case CppCreate(_, body) =>
      if gas >= CPP_CONTRACT_CREATION_COST {
        assert RoomScript(c, rich, body, w) && c.contractManager !in rich;
        ScriptSpares(c, rich, false, c.contractManager, body, gas - CPP_CONTRACT_CREATION_COST, w, cppReverted, k);
      }
  }

  lemma {:induction false} EvmCreateSpares(
    c: Config, rich: set<Address>, caller: Address, m: Message, gas: nat, w: World, cppReverted: bool, k: Address)
    requires m.EvmCreate? && Room(c, rich, m, w) && k !in rich && Plain(c, k, w) && Avoids(m, k)
    ensures Spares(k, 0, w, Dispatch(c, caller, m, gas, w, cppReverted).world)
    decreases m, 2
  {
    if gas >= EVM_CONTRACT_CREATION_COST {
      CreateSpares(c, rich, caller, m, gas - EVM_CONTRACT_CREATION_COST, w, cppReverted, k);
    }
  }

  lemma {:induction false} MoveSpares(
    c: Config, rich: set<Address>, caller: Address, to: Address, m: Message, gas: nat, w: World, cppReverted: bool,
    k: Address)
    requires m.CallMessage? && Room(c, rich, m, w) && k !in rich && Plain(c, k, w) && Avoids(m, k)
    requires caller !in rich && (m.kind.DelegateCall? ==> to != k && to !in rich)
    requires ValueMoved(m) <= AccountOf(w, caller).balance
    ensures var moved := TransferFunds(w, caller, to, ValueMoved(m));
      Spares(k, Spend(caller, m, k), w, DispatchCall(c, caller, to, m, gas, moved, cppReverted).world)
    decreases m, 2
  {
    FundsTransfer(rich, w, caller, to, ValueMoved(m));
    TransferApart(c, rich, w, caller, to, ValueMoved(m));
    TransferSpares(rich, w, caller, to, ValueMoved(m), k);
    CallSpares(c, rich, caller, to, m, gas, TransferFunds(w, caller, to, ValueMoved(m)), cppReverted, k);
  }

  lemma {:induction false} CreateSpares(
    c: Config, rich: set<Address>, caller: Address, m: Message, gas: nat, w: World, cppReverted: bool, k: Address)
    requires m.EvmCreate? && Room(c, rich, m, w) && k !in rich && Plain(c, k, w) && Avoids(m, k)
    ensures var after := RunScript(c, true, m.contractAddress, m.body, gas, w, cppReverted).world;
      Spares(k, 0, w, after) && Spares(k, 0, w, FinishCreate(after, caller, m))
    decreases m, 1
  {
    assert RoomScript(c, rich, m.body, w) && m.contractAddress !in rich;
    ScriptSpares(c, rich, true, m.contractAddress, m.body, gas, w, cppReverted, k);
    CreateStays(RunScript(c, true, m.contractAddress, m.body, gas, w, cppReverted).world, caller, m, k);
  }

  lemma {:induction false} CallSpares(
    c: Config, rich: set<Address>, caller: Address, to: Address, m: Message, gas: nat, w: World, cppReverted: bool,
    k: Address)
    requires m.CallMessage? && Room(c, rich, m, w) && k !in rich && Plain(c, k, w) && Avoids(m, k)
    requires m.kind.DelegateCall? ==> to != k && to !in rich
    ensures Spares(k, 0, w, DispatchCall(c, caller, to, m, gas, w, cppReverted).world)
    decreases m, 1
  {
    if to !in c.precompiled {
      assert RoomScript(c, rich, m.body, w);
      match AccountOf(w, if m.kind.DelegateCall? then m.codeAddress else to).contractType
      case Cpp => CppSpares(c, rich, to, m, gas, w, cppReverted, k);
      case Evm => ScriptSpares(c, rich, true, to, m.body, gas, w, cppReverted, k);
      case NotAContract =>
    }
  }

  lemma {:induction false} CppSpares(
    c: Config, rich: set<Address>, to: Address, m: Message, gas: nat, w: World, cppReverted: bool, k: Address)
    requires m.CallMessage? && RoomScript(c, rich, m.body, w) && Plain(c, k, w) && Avoids(m, k)
    requires to != k && to !in rich && k !in rich
    ensures Spares(k, 0, w, CallCpp(c, to, m, gas, w, cppReverted).world)
    decreases m, 0
  {
    var cost := if m.encoded && to == c.contractManager then CPP_CONTRACT_CREATION_COST else CPP_CONTRACT_CALL_COST;
    if gas >= cost {
      ScriptSpares(c, rich, false, to, m.body, gas - cost, w, cppReverted, k);
    }
  }

  lemma {:induction false} ScriptSpares(
    c: Config, rich: set<Address>, evm: bool, self: Address, s: Script, gas: nat, w: World, cppReverted: bool, k: Address)
    requires RoomScript(c, rich, s, w) && Plain(c, k, w) && AvoidsScript(s, k)
    requires self != k && self !in rich && k !in rich
    ensures Spares(k, 0, w, RunScript(c, evm, self, s, gas, w, cppReverted).world)
    decreases s
  {
    match s
    case Done(_) =>
    case Touch(_, next) =>
      assert AvoidsAllScript(next, rich);
      ScriptSpares(c, rich, evm, self, next, gas, w, cppReverted, k);
    case Store(slot, data, next) =>
      assert AvoidsAllScript(next, rich);
      ScriptSpares(c, rich, evm, self, next, gas, w.(storage := w.storage[(self, slot) := data]), cppReverted, k);
    case Emit(payload, next) =>
      assert AvoidsAllScript(next, rich);
      ScriptSpares(c, rich, evm, self, next, gas, LogEvent(w, self, payload), cppReverted, k);
    case AddContract(a, instance, next) =>
      if a !in w.contracts {
        RegisterFunds(c, rich, w, a, instance, s);
        ScriptSpares(c, rich, evm, self, next, gas, RegisterContract(w, a, instance), cppReverted, k);
      }
    case Nested(m, onSuccess, onFailure) =>
      var g := if evm then m.gas else gas;
      NestedFunds(c, rich, self, s, g, w, cppReverted);
      assert AvoidsAll(m, rich);
      MessageSpares(c, rich, self, m, g, w, cppReverted, k);
      var n := OnMessage(c, self, m, g, w, cppReverted);
      ScriptSpares(c, rich, evm, self, if n.outcome.Success? then onSuccess else onFailure,
                   if evm then gas else n.gas, n.world, n.cppReverted, k);
  }
}
