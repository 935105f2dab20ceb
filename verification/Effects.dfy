/** What messages do, told by outcome, gas and the fields of the world before and after. */
module Effects {
  import opened Base
  import opened WorldState
  import opened Messages
  import opened Snapshot

  // ---------- Calls that run no code ----------

  /** Only accounts differ. */
  predicate OnlyAccounts(w: World, after: World) {
    after.(accounts := w.accounts) == w
  }

  /** `v` went from `a` to `b`, in 256-bit arithmetic, and no account changed in anything else. */
  ghost predicate Moved(w: World, after: World, a: Address, b: Address, v: nat) {
    && (forall k :: k != a && k != b ==> AccountOf(after, k) == AccountOf(w, k))
    && v <= AccountOf(w, a).balance
    && (a != b ==>
          && AccountOf(after, a) == AccountOf(w, a).(balance := AccountOf(w, a).balance - v)
          && AccountOf(after, b) == AccountOf(w, b).(balance := (AccountOf(w, b).balance + v) % TWO_TO_256))
    && (a == b ==> AccountOf(after, a) == AccountOf(w, a))
  }

  predicate Words(w: World, a: Address, b: Address) {
    AccountOf(w, a).balance < TWO_TO_256 && AccountOf(w, b).balance < TWO_TO_256
  }

  lemma BalanceAt(w: World, a: Address, balance: nat, k: Address)
    ensures AccountOf(SetBalance(w, a, balance), k)
         == if k == a then AccountOf(w, a).(balance := balance) else AccountOf(w, k)
  {
  }

  lemma TransferSends(w: World, a: Address, b: Address, v: nat)
    requires v <= AccountOf(w, a).balance && a != b
    ensures AccountOf(Transfer(w, a, b, v), a) == AccountOf(w, a).(balance := AccountOf(w, a).balance - v)
  {
    var debited := SetBalance(w, a, AccountOf(w, a).balance - v);
    BalanceAt(w, a, AccountOf(w, a).balance - v, a);
    BalanceAt(debited, b, Wrap256(AccountOf(debited, b).balance + v), a);
  }

  lemma TransferArrives(w: World, a: Address, b: Address, v: nat)
    requires v <= AccountOf(w, a).balance && a != b
    ensures AccountOf(Transfer(w, a, b, v), b) == AccountOf(w, b).(balance := Wrap256(AccountOf(w, b).balance + v))
  {
    var debited := SetBalance(w, a, AccountOf(w, a).balance - v);
    BalanceAt(w, a, AccountOf(w, a).balance - v, b);
    BalanceAt(debited, b, Wrap256(AccountOf(debited, b).balance + v), b);
  }

  lemma TransferElsewhere(w: World, a: Address, b: Address, v: nat, k: Address)
    requires v <= AccountOf(w, a).balance && k != a && k != b
    ensures AccountOf(Transfer(w, a, b, v), k) == AccountOf(w, k)
  {
    var debited := SetBalance(w, a, AccountOf(w, a).balance - v);
    BalanceAt(w, a, AccountOf(w, a).balance - v, k);
    BalanceAt(debited, b, Wrap256(AccountOf(debited, b).balance + v), k);
  }

  lemma TransferToSelf(w: World, a: Address, v: nat, k: Address)
    requires v <= AccountOf(w, a).balance < TWO_TO_256
    ensures AccountOf(Transfer(w, a, a, v), k) == AccountOf(w, k)
  {
    var debited := SetBalance(w, a, AccountOf(w, a).balance - v);
    BalanceAt(w, a, AccountOf(w, a).balance - v, a);
    BalanceAt(w, a, AccountOf(w, a).balance - v, k);
    BalanceAt(debited, a, Wrap256(AccountOf(debited, a).balance + v), k);
  }

  lemma TransferMoves(w: World, a: Address, b: Address, v: nat)
    requires v <= AccountOf(w, a).balance && Words(w, a, b)
    ensures var after := TransferFunds(w, a, b, v); OnlyAccounts(w, after) && Moved(w, after, a, b, v)
  {
    if v > 0 && a == b {
      forall k: Address
        ensures AccountOf(TransferFunds(w, a, b, v), k) == AccountOf(w, k)
      {
        TransferToSelf(w, a, v, k);
      }
    } else if v > 0 {
      TransferSends(w, a, b, v);
      TransferArrives(w, a, b, v);
      forall k | k != a && k != b
        ensures AccountOf(TransferFunds(w, a, b, v), k) == AccountOf(w, k)
      {
        TransferElsewhere(w, a, b, v, k);
      }
    }
  }

  /** A payment: an encoded call without input, to an address with no code behind it. It succeeds for the
      base cost of 21000, moves the value and touches nothing else. */
  lemma Payment(c: Config, a: Address, m: Message, gas: nat, w: World)
    requires m.CallMessage? && m.kind.Call? && m.encoded && m.emptyInput
    requires m.to !in c.precompiled && AccountOf(w, m.to).contractType.NotAContract?
    requires m.value <= AccountOf(w, a).balance && Words(w, a, m.to) && gas >= 21_000
    ensures var r := Execute(c, a, m, gas, w);
      && r.outcome == Success && r.gas == gas - 21_000 && r.minted == 0 && !r.cppReverted
      && OnlyAccounts(w, r.world) && Moved(w, r.world, a, m.to, m.value)
  {
    var sent := TransferFunds(w, a, m.to, m.value);
    TransferMoves(w, a, m.to, m.value);
    assert AccountOf(sent, m.to).contractType.NotAContract?;
    assert Dispatch(c, a, m, gas - 21_000, w, false) == Stop(Success, gas - 21_000, sent, false);
  }

  /** The code that a call is about: a delegate call runs the code of another address. */
  function CodeOf(m: Message): Address
    requires m.CallMessage?
  {
    if m.kind.DelegateCall? then m.codeAddress else m.to
  }

  /** The address in whose name the code runs. */
  function Runner(caller: Address, m: Message): Address
    requires m.CallMessage?
  {
    if m.kind.DelegateCall? then caller else m.to
  }

  /** Calls that move nothing, or cannot. */
  predicate Valueless(m: Message)
    requires m.CallMessage?
  {
    !m.kind.Call? || m.value == 0
  }

  /** The same call of other code. */
  function WithBody(m: Message, body: Script): Message
    requires m.CallMessage?
  {
    CallMessage(m.kind, m.encoded, m.to, m.codeAddress, m.value, m.emptyInput, m.gas, m.native, body)
  }

  /** The same call without value. */
  function Free(m: Message): Message
    requires m.CallMessage?
  {
    CallMessage(m.kind, m.encoded, m.to, m.codeAddress, 0, m.emptyInput, m.gas, m.native, m.body)
  }

  lemma NothingMoves(c: Config, caller: Address, m: Message, gas: nat, w: World)
    requires m.CallMessage? && Valueless(m)
    ensures Dispatch(c, caller, m, gas, w, false) == DispatchCall(c, caller, Runner(caller, m), m, gas, w, false)
  {
  }

  /** Any other call to an address without code fails: with input, or packed. The value is put back. */
  lemma NoCodeToCall(c: Config, a: Address, m: Message, gas: nat, w: World)
    requires m.CallMessage? && !(m.encoded && m.emptyInput) && Words(w, a, m.to)
    requires Runner(a, m) !in c.precompiled && AccountOf(w, CodeOf(m)).contractType.NotAContract? && gas >= 21_000
    ensures var r := Execute(c, a, m, gas, w);
      r.outcome == Failure && r.gas == gas - 21_000 && r.world == w && r.minted == 0 && !r.cppReverted
  {
    var g := gas - 21_000;
    if AccountOf(w, a).balance >= ValueMoved(m) {
      TransferMoves(w, a, Runner(a, m), ValueMoved(m));
      var sent := TransferFunds(w, a, Runner(a, m), ValueMoved(m));
      assert AccountOf(sent, CodeOf(m)).contractType.NotAContract?;
      assert Dispatch(c, a, m, g, w, false) == Stop(Failure, g, sent, false);
    } else {
      assert Dispatch(c, a, m, g, w, false) == Stop(Failure, g, w, false);
    }
  }

  /** Without input even a delegate call to an address without code counts as a payment, of nothing. */
  lemma EmptyCall(c: Config, a: Address, m: Message, gas: nat, w: World)
    requires m.CallMessage? && m.encoded && m.emptyInput && Valueless(m)
    requires Runner(a, m) !in c.precompiled && AccountOf(w, CodeOf(m)).contractType.NotAContract? && gas >= 21_000
    ensures var r := Execute(c, a, m, gas, w);
      r.outcome == Success && r.gas == gas - 21_000 && r.world == w && r.minted == 0 && !r.cppReverted
  {
    assert Dispatch(c, a, m, gas - 21_000, w, false) == Stop(Success, gas - 21_000, w, false);
  }

  /** A value that the caller does not hold is refused before anything else, and costs the base cost only. */
  lemma Unaffordable(c: Config, a: Address, m: Message, gas: nat, w: World)
    requires m.CallMessage? && m.kind.Call? && AccountOf(w, a).balance < m.value && gas >= 21_000
    ensures var r := Execute(c, a, m, gas, w);
      r.outcome == Failure && r.gas == gas - 21_000 && r.world == w && !r.cppReverted
  {
    assert Dispatch(c, a, m, gas - 21_000, w, false) == Stop(Failure, gas - 21_000, w, false);
  }

  /** Below the base cost of 21000 nothing runs and all gas is gone; from there on an execution is its message. */
  lemma BaseCost(c: Config, a: Address, m: Message, gas: nat, w: World)
    ensures var r := Execute(c, a, m, gas, w);
      if gas < 21_000 then r.outcome == OutOfGas && r.gas == 0 && r.world == w && r.minted == 0
      else r == OnMessage(c, a, m, gas - 21_000, w, false)
  {
  }

  /** A precompiled contract costs 1000, answers by itself, and leaves the world alone. */
  lemma PrecompiledCall(c: Config, a: Address, m: Message, gas: nat, w: World)
    requires m.CallMessage? && Valueless(m) && Runner(a, m) in c.precompiled
    ensures var r := OnMessage(c, a, m, gas, w, false);
      && r.world == w && !r.cppReverted
      && (m.kind.DelegateCall? ==> r.outcome == Failure && r.gas == gas)
      && (!m.kind.DelegateCall? && gas < 1_000 ==> r.outcome == OutOfGas && r.gas == 0)
      && (!m.kind.DelegateCall? && gas >= 1_000 ==> r.outcome == m.native.outcome && r.gas <= gas - 1_000)
      && (!m.kind.DelegateCall? && gas - 1_000 >= m.native.gasLeft ==> r.gas == m.native.gasLeft)
  {
    NothingMoves(c, a, m, gas, w);
  }

  // ---------- What the code of a contract does ----------

  /** The call runs EVM code. */
  predicate RunsEvm(c: Config, caller: Address, m: Message, w: World) {
    && m.CallMessage? && Valueless(m)
    && Runner(caller, m) !in c.precompiled && AccountOf(w, CodeOf(m)).contractType.Evm?
  }

  /** The call runs the code of a C++ contract, and what that costs. */
  predicate RunsCpp(c: Config, caller: Address, m: Message, w: World) {
    && m.CallMessage? && Valueless(m) && !m.kind.DelegateCall?
    && m.to !in c.precompiled && AccountOf(w, m.to).contractType.Cpp? && m.to in w.contracts
  }

  function CppCost(c: Config, m: Message): nat
    requires m.CallMessage?
  {
    if m.encoded && m.to == c.contractManager then 50_000 else 1_000
  }

  /** The call runs code of either kind. */
  predicate Runs(c: Config, caller: Address, m: Message, gas: nat, w: World)
    requires m.CallMessage?
  {
    RunsEvm(c, caller, m, w) || (RunsCpp(c, caller, m, w) && gas >= CppCost(c, m))
  }

  /** What a call of EVM code amounts to. */
  lemma EvmCall(c: Config, caller: Address, m: Message, gas: nat, w: World)
    requires RunsEvm(c, caller, m, w)
    ensures Dispatch(c, caller, m, gas, w, false) == RunScript(c, true, Runner(caller, m), m.body, gas, w, false)
  {
    NothingMoves(c, caller, m, gas, w);
  }

  lemma CppCall(c: Config, caller: Address, m: Message, gas: nat, w: World)
    requires RunsCpp(c, caller, m, w) && gas >= CppCost(c, m)
    ensures var b := RunScript(c, false, m.to, m.body, gas - CppCost(c, m), w, false);
      Dispatch(c, caller, m, gas, w, false)
      == if b.outcome.Success? then b else b.(cppReverted := true, cppThrows := b.cppThrows + 1)
  {
    NothingMoves(c, caller, m, gas, w);
  }

  /** Two runs that answer alike, and leave the same world if they succeed. */
  predicate Alike(r: Run, s: Run) {
    && r.outcome == s.outcome && r.gas == s.gas && r.cppReverted == s.cppReverted && r.minted == s.minted
    && (r.outcome.Success? ==> r.world == s.world)
  }

  lemma SameDispatch(c: Config, caller: Address, m: Message, gas: nat, w: World, n: Message, rest: nat, v: World)
    requires Dispatch(c, caller, m, gas, w, false) == Dispatch(c, caller, n, rest, v, false)
    ensures Alike(OnMessage(c, caller, m, gas, w, false), OnMessage(c, caller, n, rest, v, false))
  {
  }

  /** The same, told without what is counted on the side. */
  predicate Continues(r: Run, s: Run) {
    r.outcome == s.outcome && r.gas == s.gas && (r.outcome.Success? ==> r.world == s.world)
  }

  lemma ContinuesDispatch(c: Config, caller: Address, m: Message, gas: nat, w: World, n: Message, rest: nat, v: World)
    requires var d, e := Dispatch(c, caller, m, gas, w, false), Dispatch(c, caller, n, rest, v, false);
      d.outcome == e.outcome && d.gas == e.gas && d.world == e.world && d.cppReverted == e.cppReverted
    ensures Continues(OnMessage(c, caller, m, gas, w, false), OnMessage(c, caller, n, rest, v, false))
  {
  }

  /** EVM code that ends: its outcome, and no more gas than it had. A failure leaves the world as it was. */
  lemma EvmDone(c: Config, caller: Address, m: Message, gas: nat, w: World)
    requires RunsEvm(c, caller, m, w) && m.body.Done?
    ensures var r := OnMessage(c, caller, m, gas, w, false);
      && r.outcome == m.body.halt.outcome && r.world == w && !r.cppReverted && r.minted == 0
      && r.gas == if m.body.halt.gasLeft < gas then m.body.halt.gasLeft else gas
  {
    EvmCall(c, caller, m, gas, w);
  }

  /** C++ code that ends costs 1000, or 50000 if it is the contract manager's; a failure is remembered. */
  lemma CppDone(c: Config, caller: Address, m: Message, gas: nat, w: World)
    requires RunsCpp(c, caller, m, w) && m.body.Done? && gas >= CppCost(c, m)
    ensures var r := OnMessage(c, caller, m, gas, w, false);
      && r.outcome == m.body.halt.outcome && r.world == w && r.gas == gas - CppCost(c, m)
      && (r.cppReverted <==> !r.outcome.Success?)
  {
    CppCall(c, caller, m, gas, w);
  }

  /** Calls to C++ contracts that do not get to run: a delegate call, too little gas, no such contract. */
  lemma CppNotRun(c: Config, caller: Address, m: Message, gas: nat, w: World)
    requires m.CallMessage? && Valueless(m) && Runner(caller, m) !in c.precompiled
    requires AccountOf(w, CodeOf(m)).contractType.Cpp?
    requires m.kind.DelegateCall? || gas < CppCost(c, m) || m.to !in w.contracts
    ensures var r := OnMessage(c, caller, m, gas, w, false);
      && !r.outcome.Success? && r.world == w && r.cppReverted
      && r.gas == (if m.kind.DelegateCall? then gas else if gas < CppCost(c, m) then 0 else gas - CppCost(c, m))
      && (r.outcome.OutOfGas? <==> !m.kind.DelegateCall? && gas < CppCost(c, m))
  {
    NothingMoves(c, caller, m, gas, w);
  }

  // ---------- One step of code ----------

  /** Storing: the rest runs where the slot of the running contract holds the data. */
  lemma StoreStep(c: Config, caller: Address, m: Message, gas: nat, w: World)
    requires m.CallMessage? && m.body.Store? && Runs(c, caller, m, gas, w)
    ensures var s, rest := m.body, WithBody(m, m.body.next);
      var stored := w.(storage := w.storage[(Runner(caller, m), s.slot) := s.data]);
      Alike(OnMessage(c, caller, m, gas, w, false), OnMessage(c, caller, rest, gas, stored, false))
  {
    var s, rest := m.body, WithBody(m, m.body.next);
    var stored := w.(storage := w.storage[(Runner(caller, m), s.slot) := s.data]);
    if RunsEvm(c, caller, m, w) {
      EvmCall(c, caller, m, gas, w);
      EvmCall(c, caller, rest, gas, stored);
    } else {
      CppCall(c, caller, m, gas, w);
      CppCall(c, caller, rest, gas, stored);
    }
    SameDispatch(c, caller, m, gas, w, rest, gas, stored);
  }

  /** Emitting: the rest runs behind one more event, numbered by its place, of the running contract. */
  lemma EmitStep(c: Config, caller: Address, m: Message, gas: nat, w: World)
    requires m.CallMessage? && m.body.Emit? && Runs(c, caller, m, gas, w)
    ensures var s, rest := m.body, WithBody(m, m.body.next);
      var emitted := w.(events := w.events + [Event(|w.events|, Runner(caller, m), s.payload)]);
      Alike(OnMessage(c, caller, m, gas, w, false), OnMessage(c, caller, rest, gas, emitted, false))
  {
    var s, rest := m.body, WithBody(m, m.body.next);
    var emitted := w.(events := w.events + [Event(|w.events|, Runner(caller, m), s.payload)]);
    if RunsEvm(c, caller, m, w) {
      EvmCall(c, caller, m, gas, w);
      EvmCall(c, caller, rest, gas, emitted);
    } else {
      CppCall(c, caller, m, gas, w);
      CppCall(c, caller, rest, gas, emitted);
    }
    SameDispatch(c, caller, m, gas, w, rest, gas, emitted);
  }

  /** Looking at an account changes nothing. */
  lemma TouchStep(c: Config, caller: Address, m: Message, gas: nat, w: World)
    requires m.CallMessage? && m.body.Touch? && Runs(c, caller, m, gas, w)
    ensures var rest := WithBody(m, m.body.next);
      Alike(OnMessage(c, caller, m, gas, w, false), OnMessage(c, caller, rest, gas, w, false))
  {
    var rest := WithBody(m, m.body.next);
    if RunsEvm(c, caller, m, w) {
      EvmCall(c, caller, m, gas, w);
      EvmCall(c, caller, rest, gas, w);
    } else {
      CppCall(c, caller, m, gas, w);
      CppCall(c, caller, rest, gas, w);
    }
    SameDispatch(c, caller, m, gas, w, rest, gas, w);
  }

  /** A C++ contract stands at `a`: it is kept, its account is a C++ contract's with nonce 1, and it is announced. */
  ghost predicate Registered(w: World, after: World, a: Address, instance: nat) {
    && (forall k :: k != a ==> AccountOf(after, k) == AccountOf(w, k))
    && AccountOf(after, a) == AccountOf(w, a).(nonce := 1, contractType := Cpp)
    && after.contracts == w.contracts[a := instance]
    && after.newContracts == w.newContracts + [NewContract(a, Some(instance))]
    && after.storage == w.storage && after.evmContracts == w.evmContracts && after.events == w.events
  }

  /** Canonical worlds that agree in every account agree. */
  lemma SameAccounts(v: World, w: World)
    requires IsCanonical(v.accounts) && IsCanonical(w.accounts)
    requires forall k :: AccountOf(v, k) == AccountOf(w, k)
    ensures v.accounts == w.accounts
  {
    forall k: Address
      ensures (k in v.accounts <==> k in w.accounts) && (k in v.accounts ==> v.accounts[k] == w.accounts[k])
    {
      assert AccountOf(v, k) == AccountOf(w, k);
    }
  }

  lemma RegisterFields(w: World, a: Address, instance: nat)
    requires IsCanonical(w.accounts)
    ensures Registered(w, RegisterContract(w, a, instance), a, instance)
    ensures IsCanonical(RegisterContract(w, a, instance).accounts)
  {
  }

  /** Registering a C++ contract: at a taken address it fails; otherwise the rest runs where it is registered. */
  lemma AddContractStep(c: Config, caller: Address, m: Message, gas: nat, w: World, added: World)
    requires m.CallMessage? && m.body.AddContract? && RunsCpp(c, caller, m, w) && gas >= CppCost(c, m)
    requires IsCanonical(w.accounts) && IsCanonical(added.accounts)
    requires Registered(w, added, m.body.contractAddress, m.body.instance)
    ensures var r, rest := OnMessage(c, caller, m, gas, w, false), WithBody(m, m.body.next);
      if m.body.contractAddress in w.contracts then r.outcome == Failure && r.world == w && r.cppReverted
      else Alike(r, OnMessage(c, caller, rest, gas, added, false))
  {
    var s, rest := m.body, WithBody(m, m.body.next);
    CppCall(c, caller, m, gas, w);
    if s.contractAddress !in w.contracts {
      RegisterFields(w, s.contractAddress, s.instance);
      SameAccounts(added, RegisterContract(w, s.contractAddress, s.instance));
      assert added == RegisterContract(w, s.contractAddress, s.instance);
      CppCall(c, caller, rest, gas, added);
      SameDispatch(c, caller, m, gas, w, rest, gas, added);
    }
  }

  /** A message sent by EVM code has its own gas. What follows it depends on whether it returned or threw,
      and starts in the world it left. A C++ failure below makes all of it fail. */
  lemma EvmNestedStep(c: Config, caller: Address, m: Message, gas: nat, w: World, n: Run, rest: Message)
    requires RunsEvm(c, caller, m, w) && m.body.Nested?
    requires n == OnMessage(c, Runner(caller, m), m.body.message, m.body.message.gas, w, false)
    requires rest == WithBody(m, if n.outcome.Success? then m.body.onSuccess else m.body.onFailure)
    requires RunsEvm(c, caller, m, n.world)
    ensures var r := OnMessage(c, caller, m, gas, w, false);
      && (n.cppReverted ==> !r.outcome.Success?)
      && (!n.cppReverted ==> Continues(r, OnMessage(c, caller, rest, gas, n.world, false)))
  {
    var e := RunScript(c, true, Runner(caller, m), rest.body, gas, n.world, n.cppReverted);
    EvmCall(c, caller, m, gas, w);
    EvmCall(c, caller, rest, gas, n.world);
    assert Dispatch(c, caller, m, gas, w, false) == Then(n, e);
    if !n.cppReverted {
      ContinuesDispatch(c, caller, m, gas, w, rest, gas, n.world);
    }
  }

  lemma CppNestedRun(c: Config, caller: Address, m: Message, gas: nat, w: World, n: Run, rest: Message)
    requires RunsCpp(c, caller, m, w) && m.body.Nested? && gas >= CppCost(c, m)
    requires n == OnMessage(c, m.to, m.body.message, gas - CppCost(c, m), w, false)
    requires rest == WithBody(m, if n.outcome.Success? then m.body.onSuccess else m.body.onFailure)
    requires RunsCpp(c, caller, m, n.world)
    ensures n.cppReverted ==> Dispatch(c, caller, m, gas, w, false).cppReverted
    ensures !n.cppReverted ==>
      var d, e := Dispatch(c, caller, m, gas, w, false), Dispatch(c, caller, rest, n.gas + CppCost(c, m), n.world, false);
      d.outcome == e.outcome && d.gas == e.gas && d.world == e.world && d.cppReverted == e.cppReverted
  {
    var e := RunScript(c, false, m.to, rest.body, n.gas, n.world, n.cppReverted);
    assert RunScript(c, false, m.to, m.body, gas - CppCost(c, m), w, false) == Then(n, e);
    CppCall(c, caller, m, gas, w);
    CppCall(c, caller, rest, n.gas + CppCost(c, m), n.world);
  }

  /** A message sent by C++ code takes from the one gas counter. */
  lemma CppNestedStep(c: Config, caller: Address, m: Message, gas: nat, w: World, n: Run, rest: Message)
    requires RunsCpp(c, caller, m, w) && m.body.Nested? && gas >= CppCost(c, m)
    requires n == OnMessage(c, m.to, m.body.message, gas - CppCost(c, m), w, false)
    requires rest == WithBody(m, if n.outcome.Success? then m.body.onSuccess else m.body.onFailure)
    requires RunsCpp(c, caller, m, n.world)
    ensures var r := OnMessage(c, caller, m, gas, w, false);
      && (n.cppReverted ==> !r.outcome.Success?)
      && (!n.cppReverted ==> Continues(r, OnMessage(c, caller, rest, n.gas + CppCost(c, m), n.world, false)))
  {
    CppNestedRun(c, caller, m, gas, w, n, rest);
    if !n.cppReverted {
      ContinuesDispatch(c, caller, m, gas, w, rest, n.gas + CppCost(c, m), n.world);
    }
  }

  /** The value moves before the code runs: what the code sees is the world in which it has moved. */
  lemma FundsFirst(c: Config, caller: Address, m: Message, gas: nat, w: World, paid: World)
    requires m.CallMessage? && m.kind.Call? && m.value <= AccountOf(w, caller).balance && Words(w, caller, m.to)
    requires IsCanonical(w.accounts) && IsCanonical(paid.accounts)
    requires OnlyAccounts(w, paid) && Moved(w, paid, caller, m.to, m.value)
    ensures Alike(OnMessage(c, caller, m, gas, w, false), OnMessage(c, caller, Free(m), gas, paid, false))
  {
    TransferMoves(w, caller, m.to, m.value);
    var sent := TransferFunds(w, caller, m.to, m.value);
    TransferCanonical(w, caller, m.to, m.value);
    MovedAlike(w, sent, paid, caller, m.to, m.value);
    ValueUnseen(c, caller, m, gas, paid);
    SameDispatch(c, caller, m, gas, w, Free(m), gas, paid);
  }

  lemma MovedAlike(w: World, x: World, y: World, a: Address, b: Address, v: nat)
    requires IsCanonical(x.accounts) && OnlyAccounts(w, x) && Moved(w, x, a, b, v)
    requires IsCanonical(y.accounts) && OnlyAccounts(w, y) && Moved(w, y, a, b, v)
    ensures x == y
  {
    forall k: Address
      ensures AccountOf(x, k) == AccountOf(y, k)
    {
    }
    SameAccounts(x, y);
  }

  lemma TransferCanonical(w: World, a: Address, b: Address, v: nat)
    requires v <= AccountOf(w, a).balance && IsCanonical(w.accounts)
    ensures IsCanonical(TransferFunds(w, a, b, v).accounts)
  {
  }

  lemma ValueUnseen(c: Config, caller: Address, m: Message, gas: nat, w: World)
    requires m.CallMessage? && m.kind.Call?
    ensures DispatchCall(c, caller, m.to, m, gas, w, false) == DispatchCall(c, caller, m.to, Free(m), gas, w, false)
  {
  }

  // ---------- Whole calls ----------

  /** A call of EVM code that stores one slot: the slot of the called contract, or of the caller if the call
      is a delegate call, holds the data, and every other slot is as before. */
  lemma StoresSlot(c: Config, caller: Address, m: Message, gas: nat, w: World, slot: Hash, data: Hash, gasLeft: nat)
    requires RunsEvm(c, caller, m, w) && m.body == Store(slot, data, Done(Halt(Success, gasLeft))) && gas >= 21_000
    ensures var r := Execute(c, caller, m, gas, w);
      var self := if m.kind.DelegateCall? then caller else m.to;
      && r.outcome == Success && r.world.(storage := w.storage) == w
      && (self, slot) in r.world.storage && r.world.storage[(self, slot)] == data
      && r.world.storage.Keys == w.storage.Keys + {(self, slot)}
      && (forall k :: k in w.storage && k != (self, slot) ==> r.world.storage[k] == w.storage[k])
  {
    var rest := WithBody(m, m.body.next);
    var stored := w.(storage := w.storage[(Runner(caller, m), slot) := data]);
    StoreStep(c, caller, m, gas - 21_000, w);
    EvmDone(c, caller, rest, gas - 21_000, stored);
  }

  /** A call of EVM code that emits one event. */
  lemma EmitsEvent(c: Config, caller: Address, m: Message, gas: nat, w: World, payload: Bytes, gasLeft: nat)
    requires RunsEvm(c, caller, m, w) && m.body == Emit(payload, Done(Halt(Success, gasLeft))) && gas >= 21_000
    ensures var r := Execute(c, caller, m, gas, w);
      var self := if m.kind.DelegateCall? then caller else m.to;
      && r.outcome == Success && r.world.(events := w.events) == w
      && |r.world.events| == |w.events| + 1 && r.world.events[..|w.events|] == w.events
      && r.world.events[|w.events|] == Event(|w.events|, self, payload)
  {
    var rest := WithBody(m, m.body.next);
    var emitted := w.(events := w.events + [Event(|w.events|, Runner(caller, m), payload)]);
    EmitStep(c, caller, m, gas - 21_000, w);
    EvmDone(c, caller, rest, gas - 21_000, emitted);
  }

  // ---------- Creations ----------

  /** The account that a new EVM contract has. */
  function Created(w: World, a: Address, value: nat, codeHash: Hash, code: Bytes): Account {
    Account((AccountOf(w, a).balance + value) % TWO_TO_256, 1, codeHash,
            Some(if codeHash in w.evmContracts then w.evmContracts[codeHash] else code), Evm)
  }

  /** The contract of a creation by `caller` is in place. Its account gets the value, nonce 1 and the code that
      is kept for its hash, and the contract is announced. A creator that is a contract counts the creation,
      unless it is salted. */
  ghost predicate InPlace(w: World, after: World, caller: Address, m: Message)
    requires m.EvmCreate?
  {
    var a, creator := m.contractAddress, AccountOf(w, caller);
    && AccountOf(after, a)
       == Created(w, a, m.value, m.codeHash, m.code).(nonce := if caller == a && !m.salted then 2 else 1)
    && (caller != a ==>
          AccountOf(after, caller) == if m.salted || creator.contractType.NotAContract? then creator
                                      else creator.(nonce := (creator.nonce + 1) % TWO_TO_64))
    && (forall k :: k != a && k != caller ==> AccountOf(after, k) == AccountOf(w, k))
    && after.evmContracts
       == (if m.codeHash in w.evmContracts then w.evmContracts else w.evmContracts[m.codeHash := m.code])
    && after.newContracts == w.newContracts + [NewContract(a, None)]
    && after.storage == w.storage && after.contracts == w.contracts && after.events == w.events
  }

  /** Creating an EVM contract costs 100000. */
  lemma EvmCreation(c: Config, caller: Address, m: Message, gas: nat, w: World)
    requires m.EvmCreate? && m.body.Done? && m.body.halt.outcome.Success? && gas >= 100_000
    ensures var r := OnMessage(c, caller, m, gas, w, false);
      && r.outcome == Success && r.minted == m.value && !r.cppReverted && InPlace(w, r.world, caller, m)
      && r.gas == if m.body.halt.gasLeft < gas - 100_000 then m.body.halt.gasLeft else gas - 100_000
  {
    var b := RunScript(c, true, m.contractAddress, m.body, gas - 100_000, w, false);
    assert b == Stop(Success, Min(m.body.halt.gasLeft, gas - 100_000), w, false);
    FinishFields(w, caller, m);
  }

  lemma WriteFields(w: World, a: Address, value: nat, codeHash: Hash, code: Bytes, k: Address)
    ensures AccountOf(WriteContract(w, a, value, codeHash, code), k)
         == if k == a then Account((AccountOf(w, a).balance + value) % TWO_TO_256, 1, codeHash, Some(code), Evm)
            else AccountOf(w, k)
    ensures OnlyAccounts(w, WriteContract(w, a, value, codeHash, code))
  {
    var x1 := AccountOf(w, a).(nonce := 1);
    var x2 := x1.(codeHash := codeHash);
    var x3 := x2.(code := Some(code));
    var x4 := x3.(contractType := Evm);
    var w1 := SetAccount(w, a, x1);
    AccountOfSet(w, a, x1, a);
    AccountOfSet(w, a, x1, k);
    var w2 := SetAccount(w1, a, x2);
    AccountOfSet(w1, a, x2, a);
    AccountOfSet(w1, a, x2, k);
    var w3 := SetAccount(w2, a, x3);
    AccountOfSet(w2, a, x3, a);
    AccountOfSet(w2, a, x3, k);
    var w4 := SetAccount(w3, a, x4);
    AccountOfSet(w3, a, x4, a);
    AccountOfSet(w3, a, x4, k);
    AccountOfSet(w4, a, x4.(balance := Wrap256(x4.balance + value)), k);
  }

  lemma ShareAt(w: World, codeHash: Hash, code: Bytes)
    ensures var shared := ShareCode(w, codeHash, code);
      && shared.accounts == w.accounts
      && shared.evmContracts[codeHash] == if codeHash in w.evmContracts then w.evmContracts[codeHash] else code
  {
  }

  lemma DeployAt(w: World, a: Address, value: nat, codeHash: Hash, code: Bytes, k: Address)
    ensures AccountOf(Deploy(w, a, value, codeHash, code), k)
         == if k == a then Created(w, a, value, codeHash, code) else AccountOf(w, k)
  {
    var shared := ShareCode(w, codeHash, code);
    ShareAt(w, codeHash, code);
    var written := WriteContract(shared, a, value, codeHash, shared.evmContracts[codeHash]);
    WriteFields(shared, a, value, codeHash, shared.evmContracts[codeHash], k);
    assert Deploy(w, a, value, codeHash, code).accounts == written.accounts;
  }

  lemma DeployRest(w: World, a: Address, value: nat, codeHash: Hash, code: Bytes)
    ensures var after := Deploy(w, a, value, codeHash, code);
      && after.evmContracts == ShareCode(w, codeHash, code).evmContracts
      && after.newContracts == w.newContracts + [NewContract(a, None)]
      && after.storage == w.storage && after.contracts == w.contracts && after.events == w.events
  {
    var shared := ShareCode(w, codeHash, code);
    WriteFields(shared, a, value, codeHash, shared.evmContracts[codeHash], a);
  }

  lemma BumpAt(w: World, a: Address, k: Address)
    ensures var x, after := AccountOf(w, a), BumpContractNonce(w, a);
      && OnlyAccounts(w, after)
      && AccountOf(after, k) == (if k != a then AccountOf(w, k)
                                 else if x.contractType.NotAContract? then x
                                 else x.(nonce := (x.nonce + 1) % TWO_TO_64))
  {
  }

  lemma FinishFields(w: World, caller: Address, m: Message)
    requires m.EvmCreate?
    ensures InPlace(w, FinishCreate(w, caller, m), caller, m)
  {
    var deployed := Deploy(w, m.contractAddress, m.value, m.codeHash, m.code);
    DeployRest(w, m.contractAddress, m.value, m.codeHash, m.code);
    DeployAt(w, m.contractAddress, m.value, m.codeHash, m.code, caller);
    forall k: Address
      ensures AccountOf(deployed, k)
           == if k == m.contractAddress then Created(w, k, m.value, m.codeHash, m.code) else AccountOf(w, k)
      ensures OnlyAccounts(deployed, BumpContractNonce(deployed, caller))
      ensures k != caller ==> AccountOf(BumpContractNonce(deployed, caller), k) == AccountOf(deployed, k)
    {
      DeployAt(w, m.contractAddress, m.value, m.codeHash, m.code, k);
      BumpAt(deployed, caller, k);
    }
    BumpAt(deployed, caller, caller);
  }

  /** Init code stores into the contract that is being created. */
  lemma InitStores(c: Config, caller: Address, m: Message, gas: nat, w: World)
    requires m.EvmCreate? && m.body.Store? && gas >= 100_000
    ensures var s, stored := m.body, w.(storage := w.storage[(m.contractAddress, m.body.slot) := m.body.data]);
      var rest := EvmCreate(m.salted, m.contractAddress, m.value, m.codeHash, m.code, m.gas, s.next);
      Alike(OnMessage(c, caller, m, gas, w, false), OnMessage(c, caller, rest, gas, stored, false))
  {
    var stored := w.(storage := w.storage[(m.contractAddress, m.body.slot) := m.body.data]);
    var rest := EvmCreate(m.salted, m.contractAddress, m.value, m.codeHash, m.code, m.gas, m.body.next);
    CreationRuns(c, caller, m, gas, w);
    CreationRuns(c, caller, rest, gas, stored);
    var b := RunScript(c, true, m.contractAddress, m.body.next, gas - 100_000, stored, false);
    assert RunScript(c, true, m.contractAddress, m.body, gas - 100_000, w, false) == b;
    BodyUnseen(b.world, caller, m, rest);
    SameDispatch(c, caller, m, gas, w, rest, gas, stored);
  }

  lemma BodyUnseen(w: World, caller: Address, m: Message, n: Message)
    requires m.EvmCreate? && n == EvmCreate(m.salted, m.contractAddress, m.value, m.codeHash, m.code, m.gas, n.body)
    ensures FinishCreate(w, caller, m) == FinishCreate(w, caller, n)
  {
  }

  /** Init code that fails leaves no contract. */
  lemma InitFails(c: Config, caller: Address, m: Message, gas: nat, w: World)
    requires m.EvmCreate? && m.body.Done? && !m.body.halt.outcome.Success? && gas >= 100_000
    ensures var r := OnMessage(c, caller, m, gas, w, false);
      r.outcome == m.body.halt.outcome && r.world == w && r.minted == 0 && !r.cppReverted
  {
    CreationRuns(c, caller, m, gas, w);
  }

  lemma CreationRuns(c: Config, caller: Address, m: Message, gas: nat, w: World)
    requires m.EvmCreate? && gas >= 100_000
    ensures var b := RunScript(c, true, m.contractAddress, m.body, gas - 100_000, w, false);
      Dispatch(c, caller, m, gas, w, false)
      == if !b.outcome.Success? then b
         else b.(world := FinishCreate(b.world, caller, m), minted := b.minted + m.value,
                 erased := b.erased + {m.contractAddress})
  {
  }

  /** Creating a C++ contract costs 50000 and runs the contract manager; a creator that is a contract counts it. */
  lemma CppCreation(c: Config, caller: Address, m: Message, gas: nat, w: World)
    requires m.CppCreate? && m.body.Done? && m.body.halt.outcome.Success?
    requires gas >= 50_000 && c.contractManager in w.contracts
    ensures var r, creator := OnMessage(c, caller, m, gas, w, false), AccountOf(w, caller);
      && r.outcome == Success && r.gas == gas - 50_000 && r.minted == 0 && OnlyAccounts(w, r.world)
      && AccountOf(r.world, caller) == (if creator.contractType.NotAContract? then creator
                                        else creator.(nonce := (creator.nonce + 1) % TWO_TO_64))
      && (forall k :: k != caller ==> AccountOf(r.world, k) == AccountOf(w, k))
  {
    var b := RunScript(c, false, c.contractManager, m.body, gas - 50_000, w, false);
    assert b.world == w;
  }

  /** Creations that do not start: too little gas, or no contract manager. */
  lemma NoCreation(c: Config, caller: Address, m: Message, gas: nat, w: World)
    requires (m.EvmCreate? && gas < 100_000) || (m.CppCreate? && (gas < 50_000 || c.contractManager !in w.contracts))
    ensures var r := OnMessage(c, caller, m, gas, w, false);
      && !r.outcome.Success? && r.world == w && !r.cppReverted
      && (r.outcome.OutOfGas? <==> m.EvmCreate? || gas < 50_000)
      && r.gas == if r.outcome.OutOfGas? then 0 else gas - 50_000
  {
  }
}
