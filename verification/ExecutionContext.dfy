/** The execution context of one transaction: it changes the node's maps in place and journals
    every change, so that a message, or the whole transaction, can be taken back. */
module ExecutionContext {
  import opened Base
  import opened WorldState
  import W = WorldState
  import opened Journal
  import Snapshot

  /** The maps that the node's state owns and every execution context shares by reference. */
  class Store {
    var accounts: Ledger
    var storage: map<StorageKey, Hash>
    var contracts: map<Address, nat>
    var evmContracts: map<Hash, Bytes>

    constructor (
      accounts: Ledger, storage: map<StorageKey, Hash>,
      contracts: map<Address, nat>, evmContracts: map<Hash, Bytes>)
      ensures this.accounts == accounts && this.storage == storage
      ensures this.contracts == contracts && this.evmContracts == evmContracts
    {
      this.accounts, this.storage, this.contracts, this.evmContracts := accounts, storage, contracts, evmContracts;
    }

    /** The stored maps as a world in which nothing has been emitted or announced yet. */
    function Settled(): World
      reads this
    {
      World(Canonical(accounts), storage, contracts, evmContracts, [], [])
    }
  }

  /** Registering a C++ contract inserts it first and journals the insertion last. */
  lemma RegisterContractUndone(w: World, j: seq<Undo>, a: Address, instance: nat)
    requires a !in w.contracts && IsCanonical(w.accounts)
    ensures Grew(w, j, Snapshot.RegisterContract(w, a, instance),
                 j + [RestoreNonce(a, AccountOf(w, a).nonce)]
                   + [RestoreContractType(a, AccountOf(w, a).contractType)] + [EraseContract(a), PopNewContract])
  {
    var account := AccountOf(w, a);
    var w1, j1 := W.SetNonce(w, a, 1), j + [RestoreNonce(a, account.nonce)];
    SetAccountUndone(w, a, account.(nonce := 1), account);
    GrewBy(w, j, w1, RestoreNonce(a, account.nonce));
    var w2, j2 := W.SetContractType(w1, a, Cpp), j1 + [RestoreContractType(a, account.contractType)];
    SetAccountUndone(w1, a, AccountOf(w1, a).(contractType := Cpp), AccountOf(w1, a));
    GrewBy(w1, j1, w2, RestoreContractType(a, account.contractType));
    var w3 := w2.(contracts := w2.contracts[a := instance]);
    assert Apply(w3, EraseContract(a)).contracts == w2.contracts;
    AnnounceUndone(w2, j2, w3, a, Some(instance));
    GrewTransitive(w, j, w1, j1, w2, j2);
    GrewTransitive(w, j, w2, j2, Snapshot.Announce(w3, a, Some(instance)), j2 + [EraseContract(a), PopNewContract]);
  }

  lemma AnnounceUndone(w0: World, j: seq<Undo>, w: World, a: Address, instance: Option<nat>)
    requires Apply(w, EraseContract(a)) == w0
    ensures Grew(w0, j, Snapshot.Announce(w, a, instance), j + [EraseContract(a), PopNewContract])
  {
    var announced := Snapshot.Announce(w, a, instance);
    var j1 := j + [EraseContract(a)];
    GrewBy(w0, j, w, EraseContract(a));
    assert DropLast(announced.newContracts) == w.newContracts;
    GrewBy(w, j1, announced, PopNewContract);
    GrewTransitive(w0, j, w, j1, announced, j1 + [PopNewContract]);
    assert j1 + [PopNewContract] == j + [EraseContract(a), PopNewContract];
  }

  /** Announcing an EVM contract is taken back exactly when no C++ contract lives at its address:
      the journal would delete that one instead. */
  lemma EvmAnnouncementUndone(w: World, j: seq<Undo>, a: Address)
    ensures Grew(w, j, Snapshot.Announce(w, a, None), j + [EraseContract(a), PopNewContract]) <==> a !in w.contracts
  {
    var erased := Apply(w, EraseContract(a));
    AnnounceUndone(erased, j, w, a, None);
    if a !in w.contracts {
      assert erased.contracts == w.contracts;
    }
  }

  class Context {
    const store: Store
    var events: seq<Event>
    var newContracts: seq<NewContract>
    var transactions: seq<Undo>  // a stack; the newest entry is the last

    constructor (store: Store)
      ensures this.store == store && transactions == [] && View() == store.Settled()
    {
      this.store := store;
      events, newContracts, transactions := [], [], [];
    }

    function View(): World
      reads this, store
    {
      World(Canonical(store.accounts), store.storage, store.contracts, store.evmContracts, events, newContracts)
    }

    /** The effect of a journaled step: the new world, how to take it back, and that no account is forgotten. */
    twostate predicate Stepped(after: World)
      reads this, store
    {
      SteppedLosing(after, {})
    }

    /** The same for a step that the journal takes back but for the C++ contracts at some addresses. */
    twostate predicate SteppedLosing(after: World, lost: set<Address>)
      reads this, store
    {
      && View() == after
      && Grew(Without(old(View()), lost), old(transactions), after, transactions)
      && old(store.accounts).Keys <= store.accounts.Keys
    }

    /** Looking an account up inserts the default account when the address is unknown. */
    method GetAccount(a: Address) returns (account: Account)
      modifies store
      ensures account == AccountOf(View(), a) && a in store.accounts
      ensures View() == old(View()) && old(store.accounts).Keys <= store.accounts.Keys
    {
      if a !in store.accounts {
        CanonicalUpdate(store.accounts, a, EMPTY_ACCOUNT);
        PutLookup(Canonical(store.accounts), a);
        store.accounts := store.accounts[a := EMPTY_ACCOUNT];
      }
      account := store.accounts[a];
      CanonicalUpdate(store.accounts, a, account);
    }

    /** The write shared by the account setters, journaled under the given entry. */
    method WriteAccount(a: Address, x: Account, u: Undo)
      requires Apply(SetAccount(View(), a, x), u) == View()
      modifies this`transactions, store
      ensures Stepped(SetAccount(old(View()), a, x)) && transactions == old(transactions) + [u]
    {
      GrewBy(View(), transactions, SetAccount(View(), a, x), u);
      transactions := transactions + [u];
      CanonicalUpdate(store.accounts, a, x);
      store.accounts := store.accounts[a := x];
    }

    method SetBalance(a: Address, balance: nat)
      modifies this`transactions, store
      ensures Stepped(W.SetBalance(old(View()), a, balance))
    {
      var account := GetAccount(a);
      SetAccountUndone(View(), a, account.(balance := balance), account);
      WriteAccount(a, account.(balance := balance), RestoreBalance(a, account.balance));
    }

    method SetNonce(a: Address, nonce: nat)
      modifies this`transactions, store
      ensures Stepped(W.SetNonce(old(View()), a, nonce))
      ensures transactions == old(transactions) + [RestoreNonce(a, AccountOf(old(View()), a).nonce)]
    {
      var account := GetAccount(a);
      SetAccountUndone(View(), a, account.(nonce := nonce), account);
      WriteAccount(a, account.(nonce := nonce), RestoreNonce(a, account.nonce));
    }

    method SetContractType(a: Address, t: ContractType)
      modifies this`transactions, store
      ensures Stepped(W.SetContractType(old(View()), a, t))
      ensures transactions == old(transactions) + [RestoreContractType(a, AccountOf(old(View()), a).contractType)]
    {
      var account := GetAccount(a);
      SetAccountUndone(View(), a, account.(contractType := t), account);
      WriteAccount(a, account.(contractType := t), RestoreContractType(a, account.contractType));
    }

    method SetCode(a: Address, code: Bytes, codeHash: Hash)
      modifies this`transactions, store
      ensures Stepped(W.SetCode(SetCodeHash(old(View()), a, codeHash), a, Some(code)))
    {
      var account := GetAccount(a);
      SetAccountUndone(View(), a, account.(codeHash := codeHash), account);
      WriteAccount(a, account.(codeHash := codeHash), RestoreCodeHash(a, account.codeHash));
      ghost var w, j := View(), transactions;
      var hashed := account.(codeHash := codeHash);
      SetAccountUndone(View(), a, hashed.(code := Some(code)), hashed);
      WriteAccount(a, hashed.(code := Some(code)), RestoreCode(a, account.code));
      GrewTransitive(old(View()), old(transactions), w, j, View(), transactions);
    }

    /** Reads the balance only now: the account may be one that this transfer has just debited. */
    method Credit(a: Address, amount: nat)
      modifies this`transactions, store
      ensures Stepped(Snapshot.Credit(old(View()), a, amount))
    {
      var account := GetAccount(a);
      SetBalance(a, Wrap256(account.balance + amount));
    }

    method TransferBalance(from: Address, to: Address, amount: nat) returns (ok: bool)
      modifies this`transactions, store
      ensures ok <==> amount <= AccountOf(old(View()), from).balance
      ensures ok ==> Stepped(Snapshot.Transfer(old(View()), from, to, amount))
      ensures !ok ==> Stepped(old(View()))
    {
      var sender := GetAccount(from);
      var recipient := GetAccount(to);
      if sender.balance < amount {
        return false;
      }
      MoveBalance(from, to, amount);
      return true;
    }

    method MoveBalance(from: Address, to: Address, amount: nat)
      requires amount <= AccountOf(View(), from).balance
      modifies this`transactions, store
      ensures Stepped(Snapshot.Transfer(old(View()), from, to, amount))
    {
      SetBalance(from, AccountOf(View(), from).balance - amount);
      ghost var w, j := View(), transactions;
      Credit(to, amount);
      GrewTransitive(old(View()), old(transactions), w, j, View(), transactions);
    }

    method StoreSlot(a: Address, slot: Hash, data: Hash)
      modifies this`transactions, store
      ensures Stepped(old(View()).(storage := old(View()).storage[(a, slot) := data]))
    {
      var key := (a, slot);
      var u := RestoreSlot(key, if key in store.storage then Some(store.storage[key]) else None);
      ghost var after := View().(storage := View().storage[key := data]);
      assert Apply(after, u).storage == store.storage;
      GrewBy(View(), transactions, after, u);
      store.storage := store.storage[key := data];
      transactions := transactions + [u];
    }

    method AddEvent(emitter: Address, payload: Bytes)
      modifies this`transactions, this`events
      ensures Stepped(Snapshot.LogEvent(old(View()), emitter, payload))
    {
      ghost var after := Snapshot.LogEvent(View(), emitter, payload);
      assert DropLast(after.events) == events;
      GrewBy(View(), transactions, after, PopEvent);
      events := events + [Event(|events|, emitter, payload)];
      transactions := transactions + [PopEvent];
    }

    /** Only the first contract with a given code hash journals the removal of its code. */
    method CheckEvmContract(codeHash: Hash, code: Bytes) returns (shared: Bytes)
      modifies this`transactions, store
      ensures Stepped(Snapshot.ShareCode(old(View()), codeHash, code))
      ensures codeHash in View().evmContracts && shared == View().evmContracts[codeHash]
    {
      if codeHash !in store.evmContracts {
        ghost var after := View().(evmContracts := View().evmContracts[codeHash := code]);
        assert Apply(after, EraseCode(codeHash)).evmContracts == store.evmContracts;
        GrewBy(View(), transactions, after, EraseCode(codeHash));
        store.evmContracts := store.evmContracts[codeHash := code];
        transactions := transactions + [EraseCode(codeHash)];
      }
      shared := store.evmContracts[codeHash];
    }

    /** Announcing an EVM contract journals the removal of a C++ contract at its address too. */
    method NotifyNewContract(a: Address, instance: Option<nat>)
      modifies this`transactions, this`newContracts
      ensures View() == Snapshot.Announce(old(View()), a, instance)
      ensures transactions == old(transactions) + [EraseContract(a), PopNewContract]
    {
      newContracts := newContracts + [NewContract(a, instance)];
      transactions := transactions + [EraseContract(a)];
      transactions := transactions + [PopNewContract];
    }

    method AddContract(a: Address, instance: nat) returns (ok: bool)
      modifies this`transactions, this`newContracts, store
      ensures ok <==> a !in old(View()).contracts
      ensures Stepped(if ok then Snapshot.RegisterContract(old(View()), a, instance) else old(View()))
    {
      if a in store.contracts {
        return false;
      }
      store.contracts := store.contracts[a := instance];
      SetNonce(a, 1);
      SetContractType(a, Cpp);
      NotifyNewContract(a, Some(instance));
      RegisterContractUndone(old(View()), old(transactions), a, instance);
      ok := true;
    }

    /** Pops and undoes entries until only `height` of them are left. */
    method RevertTo(height: nat)
      modifies this, store
      ensures View() == Rollback(old(View()), old(transactions), height)
      ensures transactions == if height < |old(transactions)| then old(transactions)[..height] else old(transactions)
      ensures old(store.accounts).Keys <= store.accounts.Keys
    {
      ghost var w, j := View(), transactions;
      while |transactions| > height
        invariant |transactions| <= |j| && transactions == j[..|transactions|]
        invariant height <= |j| ==> height <= |transactions|
        invariant |j| < height ==> |transactions| == |j|
        invariant Rollback(View(), transactions, height) == Rollback(w, j, height)
        invariant old(store.accounts).Keys <= store.accounts.Keys
        decreases |transactions|
      {
        var u := transactions[|transactions| - 1];
        transactions := transactions[..|transactions| - 1];
        Undo(u);
      }
    }

    /** Forgets how to take the changes back. */
    method Commit()
      modifies this
      ensures transactions == [] && View() == Snapshot.Settle(old(View()))
    {
      while transactions != [] {
        transactions := transactions[..|transactions| - 1];
      }
      events, newContracts := [], [];
    }

    method Revert()
      modifies this, store
      ensures transactions == []
      ensures View() == Snapshot.Settle(Rollback(old(View()), old(transactions), 0))
      ensures old(store.accounts).Keys <= store.accounts.Keys
    {
      RevertTo(0);
      events, newContracts := [], [];
    }

    method Undo(u: Undo)
      modifies this`events, this`newContracts, store
      ensures View() == Apply(old(View()), u)
      ensures old(store.accounts).Keys <= store.accounts.Keys
    {
      match u
      case RestoreBalance(a, x) => PutBack(a, Lookup(store.accounts, a).(balance := x));
      case RestoreNonce(a, x) => PutBack(a, Lookup(store.accounts, a).(nonce := x));
      case RestoreCodeHash(a, x) => PutBack(a, Lookup(store.accounts, a).(codeHash := x));
      case RestoreCode(a, x) => PutBack(a, Lookup(store.accounts, a).(code := x));
      case RestoreContractType(a, x) => PutBack(a, Lookup(store.accounts, a).(contractType := x));
      case RestoreSlot(k, None) => store.storage := store.storage - {k};
      case RestoreSlot(k, Some(x)) => store.storage := store.storage[k := x];
      case EraseCode(h) => store.evmContracts := store.evmContracts - {h};
      case EraseContract(a) => store.contracts := store.contracts - {a};
      case PopEvent => events := DropLast(events);
      case PopNewContract => newContracts := DropLast(newContracts);
    }

    method PutBack(a: Address, x: Account)
      modifies store
      ensures View() == SetAccount(old(View()), a, x)
      ensures Lookup(old(store.accounts), a) == AccountOf(old(View()), a)
      ensures old(store.accounts).Keys <= store.accounts.Keys
    {
      CanonicalUpdate(store.accounts, a, x);
      store.accounts := store.accounts[a := x];
    }
  }
}
