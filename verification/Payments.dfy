/** What a transaction does to the accounts, in plain numbers. */
module Payments {
  import opened Base
  import opened WorldState
  import opened Messages
  import opened Snapshot
  import opened Transactions
  import Effects

  /** A transaction that the sender can pay for, without any wrap-around. */
  predicate Affordable(tx: Tx, w: World) {
    && tx.gasLimit < TWO_TO_64
    && tx.value + tx.gasLimit * tx.maxFeePerGas <= AccountOf(w, tx.from).balance < TWO_TO_256
  }

  /** The node refuses a transaction exactly if the sender holds less than the value and the full gas budget,
      or if the nonce is not the next one. */
  lemma RefusedIff(tx: Tx, b: Behaviour, c: Config, w: World)
    requires tx.value + tx.gasLimit * tx.maxFeePerGas < TWO_TO_256
    ensures Process(tx, b, c, w).None? <==>
      AccountOf(w, tx.from).balance < tx.value + tx.gasLimit * tx.maxFeePerGas || tx.nonce != AccountOf(w, tx.from).nonce
  {
    SmallBudget(tx);
  }

  lemma SmallBudget(tx: Tx)
    requires tx.value + tx.gasLimit * tx.maxFeePerGas < TWO_TO_256
    ensures Cost(tx) == tx.value + tx.gasLimit * tx.maxFeePerGas
  {
  }

  /** The sender pays `gasUsed` times the fee and its nonce is counted; the lists of the run are emptied. */
  ghost predicate Charged(tx: Tx, gasUsed: nat, w: World, after: World) {
    var sender := AccountOf(w, tx.from);
    && gasUsed * tx.maxFeePerGas <= sender.balance
    && AccountOf(after, tx.from) == sender.(balance := sender.balance - gasUsed * tx.maxFeePerGas,
                                            nonce := (sender.nonce + 1) % TWO_TO_64)
    && (forall k :: k != tx.from ==> AccountOf(after, k) == AccountOf(w, k))
    && after.storage == w.storage && after.contracts == w.contracts && after.evmContracts == w.evmContracts
    && after.events == [] && after.newContracts == []
  }

  lemma Fee(x: nat, y: nat, balance: nat)
    requires x * y <= balance < TWO_TO_256
    ensures Wrap256(balance - Wrap256(x * y)) == balance - x * y
  {
  }

  lemma ChargeCharges(tx: Tx, gasUsed: nat, w: World)
    requires gasUsed * tx.maxFeePerGas <= AccountOf(w, tx.from).balance < TWO_TO_256
    ensures Charged(tx, gasUsed, w, Charge(tx, gasUsed, Settle(w)))
  {
    Fee(gasUsed, tx.maxFeePerGas, AccountOf(w, tx.from).balance);
    forall k | k != tx.from
      ensures AccountOf(Charge(tx, gasUsed, Settle(w)), k) == AccountOf(w, k)
    {
      ChargeOthers(tx, gasUsed, Settle(w), k);
    }
  }

  /** After whatever run that left the sender enough, the gas that is not left is charged. */
  lemma Receipted(tx: Tx, b: Behaviour, c: Config, w: World, r: Run)
    requires Affordable(tx, w) && tx.nonce == AccountOf(w, tx.from).nonce && r == Start(tx, b, c, w)
    requires (tx.gasLimit - r.gas) * tx.maxFeePerGas <= AccountOf(r.world, tx.from).balance < TWO_TO_256
    ensures var p := Process(tx, b, c, w);
      && p.Some? && p.value.run == r && p.value.gasUsed == tx.gasLimit - r.gas
      && Charged(tx, tx.gasLimit - r.gas, r.world, p.value.world)
  {
    SmallBudget(tx);
    ChargeCharges(tx, tx.gasLimit - r.gas, r.world);
  }

  /** Value moved between plain accounts, and what the sender paid for it. */
  ghost predicate Paid(tx: Tx, value: nat, gasUsed: nat, w: World, after: World) {
    var sender := AccountOf(w, tx.from);
    && value + gasUsed * tx.maxFeePerGas <= sender.balance
    && AccountOf(after, tx.from) == sender.(balance := sender.balance - value - gasUsed * tx.maxFeePerGas,
                                            nonce := (sender.nonce + 1) % TWO_TO_64)
    && AccountOf(after, tx.to) == AccountOf(w, tx.to).(balance := AccountOf(w, tx.to).balance + value)
    && (forall k :: k != tx.from && k != tx.to ==> AccountOf(after, k) == AccountOf(w, k))
    && after.storage == w.storage && after.contracts == w.contracts && after.evmContracts == w.evmContracts
    && after.events == [] && after.newContracts == []
  }

  lemma MovedAndCharged(tx: Tx, value: nat, gasUsed: nat, w: World, between: World, after: World)
    requires tx.to != tx.from && AccountOf(w, tx.to).balance + value < TWO_TO_256
    requires Effects.OnlyAccounts(w, between) && Effects.Moved(w, between, tx.from, tx.to, value)
    requires Charged(tx, gasUsed, between, after)
    ensures Paid(tx, value, gasUsed, w, after)
  {
  }

  /** A transaction without data to a plain account uses 21000 gas: the recipient gets the value, the sender pays
      it and the fee, and its nonce is counted. Nothing else changes. */
  lemma PaymentTx(tx: Tx, b: Behaviour, c: Config, w: World)
    requires Affordable(tx, w) && tx.nonce == AccountOf(w, tx.from).nonce && tx.gasLimit >= 21_000
    requires tx.to != 0 && tx.to != tx.from && tx.emptyData
    requires tx.to !in c.precompiled && AccountOf(w, tx.to).contractType.NotAContract?
    requires AccountOf(w, tx.to).balance + tx.value < TWO_TO_256
    ensures var p := Process(tx, b, c, w);
      p.Some? && p.value.run.outcome == Success && p.value.gasUsed == 21_000 && Paid(tx, tx.value, 21_000, w, p.value.world)
  {
    var r := Start(tx, b, c, w);
    Effects.Payment(c, tx.from, ToMessage(tx, b), tx.gasLimit, w);
    ProductMonotone(21_000, tx.gasLimit, tx.maxFeePerGas);
    assert tx.gasLimit - r.gas == 21_000;
    Receipted(tx, b, c, w, r);
    MovedAndCharged(tx, tx.value, 21_000, w, r.world, Process(tx, b, c, w).value.world);
  }

  /** With data it fails: the recipient gets nothing, and the sender pays the fee all the same. */
  lemma DataTx(tx: Tx, b: Behaviour, c: Config, w: World)
    requires Affordable(tx, w) && tx.nonce == AccountOf(w, tx.from).nonce && tx.gasLimit >= 21_000
    requires tx.to != 0 && tx.to != tx.from && !tx.emptyData
    requires tx.to !in c.precompiled && AccountOf(w, tx.to).contractType.NotAContract?
    requires AccountOf(w, tx.to).balance < TWO_TO_256
    ensures var p := Process(tx, b, c, w);
      p.Some? && p.value.run.outcome == Failure && p.value.gasUsed == 21_000 && Paid(tx, 0, 21_000, w, p.value.world)
  {
    var r := Start(tx, b, c, w);
    Effects.NoCodeToCall(c, tx.from, ToMessage(tx, b), tx.gasLimit, w);
    ProductMonotone(21_000, tx.gasLimit, tx.maxFeePerGas);
    assert tx.gasLimit - r.gas == 21_000;
    Receipted(tx, b, c, w, r);
  }

  /** A transaction to the zero address creates a contract from a sender that is none. */
  lemma CreationTx(tx: Tx, b: Behaviour, c: Config, w: World, g: nat)
    requires Affordable(tx, w) && tx.nonce == AccountOf(w, tx.from).nonce && tx.to == 0 && tx.gasLimit >= 121_000
    requires AccountOf(w, tx.from).contractType.NotAContract? && b.contractAddress != tx.from
    requires b.body == Done(Halt(Success, g)) && g <= tx.gasLimit - 121_000
    ensures var p, a := Process(tx, b, c, w), b.contractAddress;
      && p.Some? && p.value.run.outcome == Success && p.value.gasUsed == tx.gasLimit - g
      && AccountOf(p.value.world, a) == Effects.Created(w, a, tx.value, b.codeHash, b.code)
      && (tx.gasLimit - g) * tx.maxFeePerGas <= AccountOf(w, tx.from).balance
      && AccountOf(p.value.world, tx.from)
         == AccountOf(w, tx.from).(balance := AccountOf(w, tx.from).balance - (tx.gasLimit - g) * tx.maxFeePerGas,
                                   nonce := (AccountOf(w, tx.from).nonce + 1) % TWO_TO_64)
  {
    var r := Start(tx, b, c, w);
    CreationRun(tx, b, c, w, g);
    ProductMonotone(tx.gasLimit - g, tx.gasLimit, tx.maxFeePerGas);
    Receipted(tx, b, c, w, r);
  }

  lemma CreationRun(tx: Tx, b: Behaviour, c: Config, w: World, g: nat)
    requires tx.to == 0 && 121_000 <= tx.gasLimit < TWO_TO_64
    requires AccountOf(w, tx.from).contractType.NotAContract? && b.contractAddress != tx.from
    requires b.body == Done(Halt(Success, g)) && g <= tx.gasLimit - 121_000
    ensures var r, a := Start(tx, b, c, w), b.contractAddress;
      && r.outcome == Success && r.gas == g
      && AccountOf(r.world, a) == Effects.Created(w, a, tx.value, b.codeHash, b.code)
      && AccountOf(r.world, tx.from) == AccountOf(w, tx.from)
  {
    var m := ToMessage(tx, b);
    Effects.BaseCost(c, tx.from, m, tx.gasLimit, w);
    Effects.EvmCreation(c, tx.from, m, tx.gasLimit - 21_000, w);
    assert Start(tx, b, c, w) == OnMessage(c, tx.from, m, tx.gasLimit - 21_000, w, false);
  }
}
