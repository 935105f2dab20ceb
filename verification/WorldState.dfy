/** The world state that a transaction changes: accounts, EVM storage, C++ contracts, EVM code, events. */
module WorldState {
  import opened Base

  datatype ContractType = NotAContract | Evm | Cpp

  datatype Account = Account(
    balance: nat, nonce: nat, codeHash: Hash, code: Option<Bytes>, contractType: ContractType)

  /** The account that a lookup inserts when the address is unknown. */
  const EMPTY_ACCOUNT := Account(0, 0, 0, None, NotAContract)

  type Ledger = map<Address, Account>

  /** In canonical form an address with the empty account is the same as an unknown address, so
      equality of canonical ledgers is equality of accounts up to default ones. */
  ghost predicate IsCanonical(m: Ledger) {
    forall a :: a in m ==> m[a] != EMPTY_ACCOUNT
  }

  type StorageKey = (Address, Hash)

  datatype Event = Event(logIndex: nat, emitter: Address, data: Bytes)

  /** A contract announced by this transaction; `None` stands for an EVM contract. */
  datatype NewContract = NewContract(address: Address, instance: Option<nat>)

  datatype World = World(
    accounts: Ledger,
    storage: map<StorageKey, Hash>,
    contracts: map<Address, nat>,
    evmContracts: map<Hash, Bytes>,
    events: seq<Event>,
    newContracts: seq<NewContract>)

  function Lookup(m: Ledger, a: Address): Account {
    if a in m then m[a] else EMPTY_ACCOUNT
  }

  function Put(m: Ledger, a: Address, x: Account): Ledger {
    if x == EMPTY_ACCOUNT then m - {a} else m[a := x]
  }

  /** The canonical form of the accounts map as the node stores it. */
  function Canonical(m: Ledger): (r: Ledger)
    ensures IsCanonical(r)
  {
    map a | a in m && m[a] != EMPTY_ACCOUNT :: m[a]
  }

  lemma PutPut(m: Ledger, a: Address, x: Account, y: Account)
    ensures Put(Put(m, a, x), a, y) == Put(m, a, y)
  {
  }

  lemma PutLookup(m: Ledger, a: Address)
    requires IsCanonical(m)
    ensures Put(m, a, Lookup(m, a)) == m
  {
  }

  lemma CanonicalUpdate(m: Ledger, a: Address, x: Account)
    ensures Canonical(m[a := x]) == Put(Canonical(m), a, x)
    ensures Lookup(Canonical(m), a) == Lookup(m, a)
  {
  }

  /** The world without the C++ contracts at some addresses. */
  function Without(w: World, lost: set<Address>): (r: World)
    ensures r.(contracts := w.contracts) == w
  {
    if lost == {} then w else w.(contracts := w.contracts - lost)
  }

  lemma WithoutTwice(w: World, a: set<Address>, b: set<Address>)
    ensures Without(Without(w, a), b) == Without(w, a + b)
  {
    assert a == {} ==> a + b == b;
    assert b == {} ==> a + b == a;
    assert w.contracts - a - b == w.contracts - (a + b);
  }

  /** Nothing is missed exactly if no contract lives there. */
  lemma WithoutIff(w: World, lost: set<Address>)
    ensures Without(w, lost) == w <==> lost !! w.contracts.Keys
  {
    if lost !! w.contracts.Keys {
      assert w.contracts - lost == w.contracts;
    } else {
      var a :| a in lost && a in w.contracts;
      assert a !in Without(w, lost).contracts;
    }
  }

  // The single writes that the engine performs on a world.

  function AccountOf(w: World, a: Address): Account {
    Lookup(w.accounts, a)
  }

  function SetAccount(w: World, a: Address, x: Account): World {
    w.(accounts := Put(w.accounts, a, x))
  }

  function SetBalance(w: World, a: Address, balance: nat): World {
    SetAccount(w, a, AccountOf(w, a).(balance := balance))
  }

  function SetNonce(w: World, a: Address, nonce: nat): World {
    SetAccount(w, a, AccountOf(w, a).(nonce := nonce))
  }

  function SetCodeHash(w: World, a: Address, codeHash: Hash): World {
    SetAccount(w, a, AccountOf(w, a).(codeHash := codeHash))
  }

  function SetCode(w: World, a: Address, code: Option<Bytes>): World {
    SetAccount(w, a, AccountOf(w, a).(code := code))
  }

  function SetContractType(w: World, a: Address, t: ContractType): World {
    SetAccount(w, a, AccountOf(w, a).(contractType := t))
  }

  lemma AccountOfSet(w: World, a: Address, x: Account, b: Address)
    ensures AccountOf(SetAccount(w, a, x), b) == if a == b then x else AccountOf(w, b)
  {
  }

  lemma SetAccountTwice(w: World, a: Address, x: Account, y: Account)
    ensures SetAccount(SetAccount(w, a, x), a, y) == SetAccount(w, a, y)
  {
    PutPut(w.accounts, a, x, y);
  }
}
