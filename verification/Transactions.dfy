/** Transactions: what the node checks before running one, and the accounting around the run. */
module Transactions {
  import opened Base
  import opened WorldState
  import opened Messages
  import opened Snapshot
  import opened Balances
  import opened MessageLaws
  import opened WorldInvariant

  datatype Tx = Tx(
    hash: Hash, from: Address, to: Address, value: nat, nonce: nat,
    gasLimit: nat, maxFeePerGas: nat, emptyData: bool)

  /** A transaction to the zero address creates a contract. */
  const NO_ADDRESS: Address := 0

  /** What the code reached by a transaction does; the transaction itself does not say. */
  datatype Behaviour = Behaviour(contractAddress: Address, codeHash: Hash, code: Bytes, native: Halt, body: Script)

  function ToMessage(tx: Tx, b: Behaviour): Message {
    if tx.to == NO_ADDRESS then
      EvmCreate(false, b.contractAddress, tx.value, b.codeHash, b.code, 0, b.body)
    else
      CallMessage(Call, true, tx.to, tx.to, tx.value, tx.emptyData, 0, b.native, b.body)
  }

  /** Value plus full gas budget, in 256-bit arithmetic. */
  function Cost(tx: Tx): nat {
    Wrap256(tx.value + Wrap256(tx.gasLimit * tx.maxFeePerGas))
  }

  predicate Ready(tx: Tx, w: World) {
    Cost(tx) <= AccountOf(w, tx.from).balance && tx.nonce == AccountOf(w, tx.from).nonce
  }

  datatype Receipt = Receipt(world: World, run: Run, gasUsed: nat)

  function Start(tx: Tx, b: Behaviour, c: Config, w: World): Run {
    Execute(c, tx.from, ToMessage(tx, b), Wrap64(tx.gasLimit), w)
  }

  /** Runs a transaction on a settled world: nothing if the sender is not ready, which makes the
      node throw; otherwise the nonce is counted and the gas used is paid whatever the run did. */
  function Process(tx: Tx, b: Behaviour, c: Config, w: World): Option<Receipt> {
    if !Ready(tx, w) then None
    else
      var r := Start(tx, b, c, w);
      var gasUsed := Wrap64(Wrap256(tx.gasLimit - r.gas));
      Some(Receipt(Charge(tx, gasUsed, Settle(r.world)), r, gasUsed))
  }

  function Charge(tx: Tx, gasUsed: nat, w: World): World {
    var sender := AccountOf(w, tx.from);
    SetAccount(w, tx.from, sender.(
      nonce := Wrap64(sender.nonce + 1),
      balance := Wrap256(sender.balance - Wrap256(gasUsed * tx.maxFeePerGas))))
  }

  /** The gas limit is a 64-bit number and the full budget fits in 256 bits. */
  predicate Fits(tx: Tx) {
    tx.gasLimit < TWO_TO_64 && tx.value + tx.gasLimit * tx.maxFeePerGas < TWO_TO_256
  }

  /** The sender is a plain account, and neither it nor the balances outside of a set of rich accounts
      are in the way of the run. */
  ghost predicate Runnable(rich: set<Address>, tx: Tx, b: Behaviour, c: Config, w: World) {
    && tx.from !in rich && Plain(c, tx.from, w)
    && Avoids(ToMessage(tx, b), tx.from)
    && Room(c, rich, ToMessage(tx, b), w)
  }

  /** After the run the sender can pay for the gas used, so that the debit does not wrap around. */
  ghost predicate Pays(tx: Tx, b: Behaviour, c: Config, w: World) {
    var r := Start(tx, b, c, w);
    (tx.gasLimit - r.gas) * tx.maxFeePerGas <= AccountOf(r.world, tx.from).balance
  }

  lemma ProductMonotone(x: nat, y: nat, z: nat)
    requires x <= y
    ensures x * z <= y * z
  {
  }

  /** A checked sender can always pay: the gas left never grows, and the run takes at most the value. */
  lemma SenderPays(rich: set<Address>, tx: Tx, b: Behaviour, c: Config, w: World)
    requires Runnable(rich, tx, b, c, w) && Fits(tx) && Ready(tx, w)
    ensures Pays(tx, b, c, w)
  {
    var m := ToMessage(tx, b);
    var r := Start(tx, b, c, w);
    if tx.gasLimit >= CONTRACT_EXECUTION_COST {
      MessageSpares(c, rich, tx.from, m, tx.gasLimit - CONTRACT_EXECUTION_COST, w, false, tx.from);
    }
    ProductMonotone(tx.gasLimit - r.gas, tx.gasLimit, tx.maxFeePerGas);
  }

  /** Balance accounting: whether it succeeds or fails, a transaction lowers the sum of all balances
      by exactly the gas it used times its fee, except for what its contract creations minted. */
  lemma TotalDropsByFee(tx: Tx, b: Behaviour, c: Config, w: World)
    requires Runnable({}, tx, b, c, w) && Ready(tx, w) && tx.gasLimit < TWO_TO_64 && Pays(tx, b, c, w)
    ensures var receipt := Process(tx, b, c, w).value;
      && Total(receipt.world) + receipt.gasUsed * tx.maxFeePerGas == Total(w) + receipt.run.minted
      && receipt.gasUsed == tx.gasLimit - receipt.run.gas
      && receipt.run.minted <= MintBound(ToMessage(tx, b))
  {
    FundsOfAll(w);
    FundsOfAll(Process(tx, b, c, w).value.world);
    FundsDropByFee({}, tx, b, c, w);
  }

  /** The same outside of a set of rich accounts, to which value may go besides. */
  lemma FundsDropByFee(rich: set<Address>, tx: Tx, b: Behaviour, c: Config, w: World)
    requires Runnable(rich, tx, b, c, w) && Ready(tx, w) && tx.gasLimit < TWO_TO_64 && Pays(tx, b, c, w)
    ensures var receipt := Process(tx, b, c, w).value;
      && receipt.gasUsed == tx.gasLimit - receipt.run.gas
      && receipt.run.minted <= MintBound(ToMessage(tx, b))
      && Funds(rich, receipt.world) + receipt.gasUsed * tx.maxFeePerGas <= Funds(rich, w) + receipt.run.minted
      && (rich == {} ==>
            Funds(rich, receipt.world) + receipt.gasUsed * tx.maxFeePerGas == Funds(rich, w) + receipt.run.minted)
  {
    var r := Start(tx, b, c, w);
    StartConserves(rich, tx, b, c, w);
    FundsOver(rich, r.world, tx.from);
    ChargeFunds(rich, tx, tx.gasLimit - r.gas, r.world);
  }

  lemma StartConserves(rich: set<Address>, tx: Tx, b: Behaviour, c: Config, w: World)
    requires tx.from !in rich && Room(c, rich, ToMessage(tx, b), w)
    ensures Conserves(rich, w, MintBound(ToMessage(tx, b)), Start(tx, b, c, w))
  {
    var gas := Wrap64(tx.gasLimit);
    if gas >= CONTRACT_EXECUTION_COST {
      MessageFunds(c, rich, tx.from, ToMessage(tx, b), gas - CONTRACT_EXECUTION_COST, w, false);
    }
  }

  lemma ChargeFunds(rich: set<Address>, tx: Tx, gasUsed: nat, w: World)
    requires tx.from !in rich && gasUsed * tx.maxFeePerGas <= AccountOf(w, tx.from).balance < TWO_TO_256
    ensures Funds(rich, Charge(tx, gasUsed, Settle(w))) + gasUsed * tx.maxFeePerGas == Funds(rich, w)
  {
    var sender := AccountOf(w, tx.from);
    var fee := gasUsed * tx.maxFeePerGas;
    FundsSetAccount(rich, Settle(w), tx.from,
                    sender.(nonce := Wrap64(sender.nonce + 1), balance := sender.balance - fee));
  }

  /** Whatever the debit does, and be it that it wraps around, it is felt by the sender only. */
  lemma ProcessFunds(rich: set<Address>, tx: Tx, b: Behaviour, c: Config, w: World)
    requires Runnable(rich, tx, b, c, w) && Ready(tx, w)
    ensures var receipt := Process(tx, b, c, w).value;
      Funds(rich + {tx.from}, receipt.world) <= Funds(rich, w) + MintBound(ToMessage(tx, b))
  {
    var receipt := Process(tx, b, c, w).value;
    var after, sender := Settle(receipt.run.world), AccountOf(receipt.world, tx.from);
    StartConserves(rich, tx, b, c, w);
    FundsOver(rich, after, tx.from);
    ChargeSets(tx, receipt.gasUsed, after);
    FundsSetAccount(rich + {tx.from}, after, tx.from, sender);
  }

  lemma ChargeSets(tx: Tx, gasUsed: nat, w: World)
    ensures Charge(tx, gasUsed, w) == SetAccount(w, tx.from, AccountOf(Charge(tx, gasUsed, w), tx.from))
  {
  }

  /** A transaction leaves every other plain account with its nonce and at least its balance. */
  lemma ProcessSparesOthers(rich: set<Address>, tx: Tx, b: Behaviour, c: Config, w: World, k: Address)
    requires Plain(c, k, w) && k != tx.from && Avoids(ToMessage(tx, b), k) && k !in rich && tx.from !in rich
    requires Room(c, rich, ToMessage(tx, b), w) && Ready(tx, w)
    ensures Spares(k, 0, w, Process(tx, b, c, w).value.world)
  {
    var m := ToMessage(tx, b);
    var gas := Wrap64(tx.gasLimit);
    var r := Start(tx, b, c, w);
    if gas >= CONTRACT_EXECUTION_COST {
      MessageSpares(c, rich, tx.from, m, gas - CONTRACT_EXECUTION_COST, w, false, k);
    }
    var gasUsed := Wrap64(Wrap256(tx.gasLimit - r.gas));
    ChargeOthers(tx, gasUsed, Settle(r.world), k);
  }

  /** Nonce and kind of other plain accounts stay whatever wraps around. */
  lemma ProcessStays(tx: Tx, b: Behaviour, c: Config, w: World, k: Address)
    requires Plain(c, k, w) && k != tx.from && Avoids(ToMessage(tx, b), k) && Ready(tx, w)
    ensures Stays(k, w, Process(tx, b, c, w).value.world)
  {
    var gas := Wrap64(tx.gasLimit);
    var r := Start(tx, b, c, w);
    if gas >= CONTRACT_EXECUTION_COST {
      MessageStays(c, tx.from, ToMessage(tx, b), gas - CONTRACT_EXECUTION_COST, w, false, k);
    }
    ChargeOthers(tx, Wrap64(Wrap256(tx.gasLimit - r.gas)), Settle(r.world), k);
  }

  lemma ChargeOthers(tx: Tx, gasUsed: nat, w: World, k: Address)
    ensures k != tx.from ==> AccountOf(Charge(tx, gasUsed, w), k) == AccountOf(w, k)
    ensures var sender := AccountOf(Charge(tx, gasUsed, w), tx.from);
      && sender.nonce == Wrap64(AccountOf(w, tx.from).nonce + 1)
      && sender.contractType == AccountOf(w, tx.from).contractType
  {
  }

  /** The sender stays a plain account and its nonce counts the transaction. */
  lemma ProcessCountsNonce(tx: Tx, b: Behaviour, c: Config, w: World)
    requires Plain(c, tx.from, w) && Avoids(ToMessage(tx, b), tx.from) && Ready(tx, w)
    ensures var after := AccountOf(Process(tx, b, c, w).value.world, tx.from);
      after.nonce == Wrap64(tx.nonce + 1) && after.contractType == NotAContract
  {
    var gas := Wrap64(tx.gasLimit);
    var r := Start(tx, b, c, w);
    if gas >= CONTRACT_EXECUTION_COST {
      MessageStays(c, tx.from, ToMessage(tx, b), gas - CONTRACT_EXECUTION_COST, w, false, tx.from);
    }
    ChargeOthers(tx, Wrap64(Wrap256(tx.gasLimit - r.gas)), Settle(r.world), tx.from);
  }

  // ---------- When the budget does not fit in 256 bits ----------

  /** Whatever the world and the code reached, a sender that passes the check can pay. */
  ghost predicate AlwaysPays(tx: Tx, c: Config) {
    forall b: Behaviour, w: World :: Runnable({}, tx, b, c, w) && Ready(tx, w) ==> Pays(tx, b, c, w)
  }

  /** The transaction goes back to its sender, so no code runs. */
  predicate ToSelf(tx: Tx, c: Config) {
    tx.to == tx.from && tx.to != NO_ADDRESS && tx.to !in c.precompiled
  }

  /** The gas lasts for the base cost, and the sender keeps its balance: because the gas does not last for
      calling a precompiled contract as well, or because the sender has the address of one and calls it. */
  predicate KeepsBalance(tx: Tx, c: Config) {
    && tx.to != NO_ADDRESS && tx.to in c.precompiled && CONTRACT_EXECUTION_COST <= tx.gasLimit
    && (tx.gasLimit < CONTRACT_EXECUTION_COST + CPP_CONTRACT_CALL_COST || tx.to == tx.from)
  }

  function Max(x: nat, y: nat): nat {
    if x < y then y else x
  }

  /** When the check before a run protects the debit after it: if value plus gas budget fits in 256
      bits, or if so little gas can be used that even the wrapped sum covers it. */
  predicate Protected(tx: Tx, c: Config) {
    || Fits(tx)
    || (ToSelf(tx, c) && Min(tx.gasLimit, CONTRACT_EXECUTION_COST) * tx.maxFeePerGas <= Cost(tx))
    || (KeepsBalance(tx, c)
        && tx.gasLimit * tx.maxFeePerGas <= Max(Cost(tx), tx.value)
        && (Cost(tx) < tx.value ==> CONTRACT_EXECUTION_COST * tx.maxFeePerGas <= Cost(tx)))
  }

  /** Some world can run the transaction: the contract manager sends none, and what a creation mints has
      room beside what its sender must hold. */
  predicate CanRun(tx: Tx, c: Config) {
    tx.from != c.contractManager && (tx.to == NO_ADDRESS ==> Cost(tx) + tx.value < TWO_TO_256)
  }

  /** The check guarantees that the fee can be debited if and only if it is protected; otherwise the
      check itself wraps around. */
  lemma AlwaysPaysIff(tx: Tx, c: Config)
    requires tx.gasLimit < TWO_TO_64 && tx.value < TWO_TO_256
    ensures AlwaysPays(tx, c) <==> Protected(tx, c) || !CanRun(tx, c)
    ensures CanRun(tx, c) <==> exists b: Behaviour, w: World :: Runnable({}, tx, b, c, w) && Ready(tx, w)
  {
    if CanRun(tx, c) {
      var b, w := Overrun(tx, c);
    }
    forall b: Behaviour, w: World | Runnable({}, tx, b, c, w) && Ready(tx, w)
      ensures CanRun(tx, c) && (Protected(tx, c) ==> Pays(tx, b, c, w))
    {
      FundsOver({}, w, tx.from);
      if Protected(tx, c) {
        ProtectedPays({}, tx, b, c, w);
      }
    }
  }

  lemma ProtectedPays(rich: set<Address>, tx: Tx, b: Behaviour, c: Config, w: World)
    requires Runnable(rich, tx, b, c, w) && Ready(tx, w) && tx.gasLimit < TWO_TO_64 && Protected(tx, c)
    ensures Pays(tx, b, c, w)
  {
    FundsOver(rich, w, tx.from);
    if Fits(tx) {
      SenderPays(rich, tx, b, c, w);
    } else if ToSelf(tx, c) {
      SelfRun(tx, b, c, w);
    } else {
      KeptPays(tx, b, c, w);
    }
  }

  /** A value that the sender does not hold stops a call after the base cost. */
  lemma Refused(tx: Tx, b: Behaviour, c: Config, w: World)
    requires tx.to != NO_ADDRESS && CONTRACT_EXECUTION_COST <= tx.gasLimit < TWO_TO_64
    requires AccountOf(w, tx.from).balance < tx.value
    ensures var r := Start(tx, b, c, w);
      r.gas == tx.gasLimit - CONTRACT_EXECUTION_COST && AccountOf(r.world, tx.from) == AccountOf(w, tx.from)
  {
    var gas := tx.gasLimit - CONTRACT_EXECUTION_COST;
    assert Dispatch(c, tx.from, ToMessage(tx, b), gas, w, false) == Stop(Failure, gas, w, false);
  }

  /** Sending to oneself uses the base cost at most and keeps the balance. */
  lemma SelfRun(tx: Tx, b: Behaviour, c: Config, w: World)
    requires ToSelf(tx, c) && Plain(c, tx.from, w) && tx.gasLimit < TWO_TO_64
    requires AccountOf(w, tx.from).balance < TWO_TO_256
    ensures var r := Start(tx, b, c, w);
      && tx.gasLimit - r.gas == Min(tx.gasLimit, CONTRACT_EXECUTION_COST)
      && AccountOf(r.world, tx.from).balance == AccountOf(w, tx.from).balance
  {
    var m, sender := ToMessage(tx, b), AccountOf(w, tx.from);
    if tx.gasLimit >= CONTRACT_EXECUTION_COST && sender.balance < tx.value {
      Refused(tx, b, c, w);
    } else if tx.gasLimit >= CONTRACT_EXECUTION_COST {
      var gas := tx.gasLimit - CONTRACT_EXECUTION_COST;
      var sent := TransferFunds(w, tx.from, tx.to, tx.value);
      assert AccountOf(sent, tx.from).balance == sender.balance && AccountOf(sent, tx.to).contractType.NotAContract?;
      assert DispatchCall(c, tx.from, tx.to, m, gas, sent, false)
          == Stop(if m.emptyInput then Success else Failure, gas, sent, false);
      assert Dispatch(c, tx.from, m, gas, w, false) == Stop(if m.emptyInput then Success else Failure, gas, sent, false);
    }
  }

  /** Such a call uses the base cost if the value cannot be moved, at most all gas if it can, and keeps
      the balance. */
  lemma KeptRun(tx: Tx, b: Behaviour, c: Config, w: World)
    requires KeepsBalance(tx, c) && tx.gasLimit < TWO_TO_64 && AccountOf(w, tx.from).balance < TWO_TO_256
    ensures var r := Start(tx, b, c, w);
      && AccountOf(r.world, tx.from).balance == AccountOf(w, tx.from).balance
      && (AccountOf(w, tx.from).balance < tx.value ==> r.gas == tx.gasLimit - CONTRACT_EXECUTION_COST)
      && (AccountOf(w, tx.from).balance >= tx.value && b.native.gasLeft == 0 ==> r.gas == 0)
  {
    if AccountOf(w, tx.from).balance < tx.value {
      Refused(tx, b, c, w);
    } else {
      PrecompiledRun(tx, b, c, w);
    }
  }

  lemma PrecompiledRun(tx: Tx, b: Behaviour, c: Config, w: World)
    requires KeepsBalance(tx, c) && tx.gasLimit < TWO_TO_64 && tx.value <= AccountOf(w, tx.from).balance < TWO_TO_256
    ensures var r := Start(tx, b, c, w);
      && AccountOf(r.world, tx.from).balance == AccountOf(w, tx.from).balance
      && (b.native.gasLeft == 0 ==> r.gas == 0)
  {
    var m := ToMessage(tx, b);
    var gas := tx.gasLimit - CONTRACT_EXECUTION_COST;
    var sent := TransferFunds(w, tx.from, tx.to, tx.value);
    var d := DispatchCall(c, tx.from, tx.to, m, gas, sent, false);
    assert d.world == sent && (gas < CPP_CONTRACT_CALL_COST ==> d.outcome.OutOfGas?);
    assert tx.to == tx.from ==> AccountOf(sent, tx.from).balance == AccountOf(w, tx.from).balance;
    assert Dispatch(c, tx.from, m, gas, w, false) == d;
  }

  lemma KeptPays(tx: Tx, b: Behaviour, c: Config, w: World)
    requires Ready(tx, w) && KeepsBalance(tx, c) && tx.gasLimit < TWO_TO_64 && AccountOf(w, tx.from).balance < TWO_TO_256
    requires tx.gasLimit * tx.maxFeePerGas <= Max(Cost(tx), tx.value)
    requires Cost(tx) < tx.value ==> CONTRACT_EXECUTION_COST * tx.maxFeePerGas <= Cost(tx)
    ensures Pays(tx, b, c, w)
  {
    KeptRun(tx, b, c, w);
    ProductMonotone(tx.gasLimit - Start(tx, b, c, w).gas, tx.gasLimit, tx.maxFeePerGas);
    ProductMonotone(CONTRACT_EXECUTION_COST, tx.gasLimit, tx.maxFeePerGas);
  }

  lemma WrappedCost(tx: Tx)
    requires tx.value < TWO_TO_256 && tx.gasLimit < TWO_TO_64 && !Fits(tx)
    ensures var budget := tx.gasLimit * tx.maxFeePerGas;
      Cost(tx) < budget && (budget < TWO_TO_256 ==> 0 < budget && Cost(tx) < tx.value)
  {
    var budget := tx.gasLimit * tx.maxFeePerGas;
    if budget < TWO_TO_256 {
      assert (tx.value + budget) % TWO_TO_256 == tx.value + budget - TWO_TO_256;
    }
  }

  /** Code that burns all the gas it gets: a creation fails, a call keeps the value. */
  function Burner(tx: Tx): Behaviour {
    var halt := Halt(if tx.to == NO_ADDRESS then Failure else Success, 0);
    Behaviour(tx.from + 1, 0, [], halt, Done(halt))
  }

  lemma CreationBurnsAll(tx: Tx, c: Config, w: World)
    requires tx.gasLimit < TWO_TO_64 && tx.to == NO_ADDRESS
    ensures var r := Start(tx, Burner(tx), c, w);
      r.gas == 0 && AccountOf(r.world, tx.from) == AccountOf(w, tx.from)
  {
    var b, m := Burner(tx), ToMessage(tx, Burner(tx));
    if tx.gasLimit >= CONTRACT_EXECUTION_COST {
      var gas := tx.gasLimit - CONTRACT_EXECUTION_COST;
      if gas >= EVM_CONTRACT_CREATION_COST {
        var left := gas - EVM_CONTRACT_CREATION_COST;
        assert RunScript(c, true, b.contractAddress, b.body, left, w, false) == Stop(Failure, 0, w, false);
      }
      var d := Dispatch(c, tx.from, m, gas, w, false);
      assert !d.outcome.Success? && d.gas == 0;
    }
  }

  lemma CallBurnsAll(tx: Tx, c: Config, w: World)
    requires tx.gasLimit < TWO_TO_64 && tx.to != NO_ADDRESS && !KeepsBalance(tx, c) && !ToSelf(tx, c)
    requires tx.from != tx.to ==> AccountOf(w, tx.to).contractType == Evm
    requires tx.gasLimit >= CONTRACT_EXECUTION_COST ==> tx.value <= AccountOf(w, tx.from).balance
    ensures var r := Start(tx, Burner(tx), c, w);
      && r.gas == 0
      && AccountOf(r.world, tx.from).balance
         == AccountOf(w, tx.from).balance - (if tx.gasLimit >= CONTRACT_EXECUTION_COST then tx.value else 0)
  {
    var b, m := Burner(tx), ToMessage(tx, Burner(tx));
    if tx.gasLimit >= CONTRACT_EXECUTION_COST {
      var gas := tx.gasLimit - CONTRACT_EXECUTION_COST;
      var sent := TransferFunds(w, tx.from, tx.to, tx.value);
      assert AccountOf(sent, tx.to).contractType == Evm;
      assert RunScript(c, true, tx.to, b.body, gas, sent, false) == Stop(Success, 0, sent, false);
      assert DispatchCall(c, tx.from, tx.to, m, gas, sent, false) == Stop(Success, 0, sent, false);
      assert Dispatch(c, tx.from, m, gas, w, false) == Stop(Success, 0, sent, false);
    }
  }

  /** A world with the sender and, unless it is the sender itself, an EVM contract at the recipient. */
  function Bare(tx: Tx, balance: nat): World {
    var sender := Account(balance, tx.nonce, 0, None, NotAContract);
    World(if tx.to == tx.from || tx.to == NO_ADDRESS then map[tx.from := sender]
          else map[tx.from := sender, tx.to := Account(0, 1, 0, Some([]), Evm)],
          map[], map[], map[0 := []], [], [])
  }

  lemma BareTotal(tx: Tx, balance: nat)
    ensures Total(Bare(tx, balance)) == balance
  {
    var w := Bare(tx, balance);
    SumTakeOut(w.accounts.Keys, w.accounts, tx.from);
    if tx.to == tx.from || tx.to == NO_ADDRESS {
      assert w.accounts.Keys - {tx.from} == {};
    } else {
      assert w.accounts.Keys - {tx.from} == {tx.to};
      SumTakeOut({tx.to}, w.accounts, tx.to);
      assert {tx.to} - {tx.to} == {};
    }
  }

  /** What the sender of an unprotected transaction holds in the world where it cannot pay. */
  function Scarce(tx: Tx, c: Config): nat {
    if tx.to == NO_ADDRESS || ToSelf(tx, c) || tx.gasLimit < CONTRACT_EXECUTION_COST then Cost(tx)
    else if KeepsBalance(tx, c) && Cost(tx) < tx.value && CONTRACT_EXECUTION_COST * tx.maxFeePerGas > Cost(tx) then Cost(tx)
    else Max(Cost(tx), tx.value)
  }

  /** A sender that holds just enough to pass the wrapped check, calling code that burns all its gas. The
      world is one that satisfies the invariant of the shared code table. */
  lemma Overrun(tx: Tx, c: Config) returns (b: Behaviour, w: World)
    requires tx.gasLimit < TWO_TO_64 && tx.value < TWO_TO_256 && CanRun(tx, c)
    ensures Runnable({}, tx, b, c, w) && Ready(tx, w) && Sane(c, w)
    ensures !Protected(tx, c) ==> !Pays(tx, b, c, w)
  {
    b, w := Burner(tx), Bare(tx, Scarce(tx, c));
    FundsOfAll(w);
    BareTotal(tx, Scarce(tx, c));
    assert MintBound(ToMessage(tx, b)) == if tx.to == NO_ADDRESS then tx.value else 0;
    if !Protected(tx, c) {
      WrappedCost(tx);
      if tx.to == NO_ADDRESS {
        CreationBurnsAll(tx, c, w);
      } else if ToSelf(tx, c) {
        SelfRun(tx, b, c, w);
      } else if KeepsBalance(tx, c) {
        KeptRun(tx, b, c, w);
      } else {
        CallBurnsAll(tx, c, w);
      }
    }
  }
}
