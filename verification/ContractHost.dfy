/** The host of one line of execution: it decides when the execution ends whether the context is
    committed or reverted, assuming the worst until a message has returned. */
module ContractHost {
  import opened Base
  import opened WorldState
  import opened Journal
  import opened Messages
  import opened ExecutionContext
  import opened MessageDispatcher
  import opened Restoring
  import opened WorldInvariant
  import Snapshot

  class Host {
    const context: Context
    const dispatcher: Dispatcher
    var mustRevert: bool

    ghost predicate Valid()
      reads this
    {
      dispatcher.context == context && dispatcher.config.restore.Popped?
    }

    constructor (config: Config, context: Context)
      requires config.restore.Popped?
      ensures Valid() && mustRevert && this.context == context
      ensures fresh(dispatcher) && dispatcher.config == config && !dispatcher.cppContractReverted
    {
      this.context := context;
      dispatcher := new Dispatcher(config, context);
      mustRevert := true;
    }

    method Execute(caller: Address, m: Message, gas: nat)
      returns (outcome: Outcome, gasLeft: nat)
      requires Valid() && !dispatcher.cppContractReverted
      modifies this, dispatcher, context, context.store
      ensures var r := Snapshot.Execute(dispatcher.config, caller, m, gas, old(context.View()));
        dispatcher.Ran(r, outcome, gasLeft)
      ensures mustRevert <==> !outcome.Success?
    {
      mustRevert := false;
      if gas < CONTRACT_EXECUTION_COST {
        outcome, gasLeft := OutOfGas, 0;
      } else {
        outcome, gasLeft := dispatcher.OnMessage(caller, m, gas - CONTRACT_EXECUTION_COST);
      }
      if !outcome.Success? {
        mustRevert := true;
      }
    }

    method Simulate(caller: Address, m: Message, gas: nat)
      returns (outcome: Outcome, gasLeft: nat)
      requires Valid() && !dispatcher.cppContractReverted
      modifies this, dispatcher, context, context.store
      ensures var r := Snapshot.Execute(dispatcher.config, caller, m, gas, old(context.View()));
        dispatcher.Ran(r, outcome, gasLeft)
      ensures mustRevert
    {
      outcome, gasLeft := Execute(caller, m, gas);
      mustRevert := true;
    }

    /** The destructor; it hands the events of a committed execution to the event store. */
    method Destroy() returns (emitted: seq<Event>)
      requires Valid()
      modifies context, context.store
      ensures old(mustRevert) ==>
        emitted == [] && context.View() == Snapshot.Settle(Rollback(old(context.View()), old(context.transactions), 0))
      ensures !old(mustRevert) ==>
        emitted == old(context.events) && context.View() == Snapshot.Settle(old(context.View()))
      ensures old(context.store.accounts).Keys <= context.store.accounts.Keys
    {
      if mustRevert {
        emitted := [];
        context.Revert();
      } else {
        emitted := context.events;
        context.Commit();
      }
    }
  }

  /** One transaction on the node's maps, from context to destructor: the effect is that of the
      semantics, whatever the message does, and an execution that throws leaves the maps as they were
      but for the C++ contracts that its EVM creations erased. */
  method ExecuteOn(store: Store, config: Config, caller: Address, m: Message, gas: nat)
    returns (outcome: Outcome, gasLeft: nat, emitted: seq<Event>)
    requires config.restore.Popped?
    modifies store
    ensures var r := Snapshot.Execute(config, caller, m, gas, old(store.Settled()));
      && outcome == r.outcome && gasLeft == r.gas
      && store.Settled() == Snapshot.Settle(r.world)
      && emitted == r.world.events
      && (!outcome.Success? ==> store.Settled() == Without(old(store.Settled()), r.erased))
    ensures var copied := Snapshot.Execute(Copying(config), caller, m, gas, old(store.Settled()));
      copied.intact ==>
        && outcome == copied.outcome && gasLeft == copied.gas
        && store.Settled() == Snapshot.Settle(copied.world)
        && (!outcome.Success? ==> store.Settled() == old(store.Settled()))
    ensures Sane(config, old(store.Settled())) ==> Sane(config, store.Settled())
    ensures old(store.accounts).Keys <= store.accounts.Keys
  {
    ghost var w := store.Settled();
    var context := new Context(store);
    var host := new Host(config, context);
    outcome, gasLeft := host.Execute(caller, m, gas);
    emitted := host.Destroy();
    ExecuteSame(config, caller, m, gas, w);
    assert Popping(config) == config;
    if Sane(config, w) {
      ExecuteSane(config, caller, m, gas, w);
    }
  }

  /** Gas estimation runs the message and leaves no trace of it, whatever the message did, but for the
      C++ contracts that its EVM creations erased. */
  method SimulateOn(store: Store, config: Config, caller: Address, m: Message, gas: nat)
    returns (outcome: Outcome, gasLeft: nat)
    requires config.restore.Popped?
    modifies store
    ensures var r := Snapshot.Execute(config, caller, m, gas, old(store.Settled()));
      && outcome == r.outcome && gasLeft == r.gas
      && store.Settled() == Without(old(store.Settled()), r.erased)
      && (store.Settled() == old(store.Settled()) <==> r.erased !! old(store.contracts).Keys)
    ensures old(store.accounts).Keys <= store.accounts.Keys
  {
    WithoutIff(store.Settled(), Snapshot.Execute(config, caller, m, gas, store.Settled()).erased);
    var context := new Context(store);
    var host := new Host(config, context);
    outcome, gasLeft := host.Simulate(caller, m, gas);
    var _ := host.Destroy();
  }
}
