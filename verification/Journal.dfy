/** The undo journal: every write pushes an entry that takes back exactly that write. */
module Journal {
  import opened Base
  import opened WorldState

  datatype Undo =
    | RestoreBalance(account: Address, balance: nat)
    | RestoreNonce(account: Address, nonce: nat)
    | RestoreCodeHash(account: Address, codeHash: Hash)
    | RestoreCode(account: Address, code: Option<Bytes>)
    | RestoreContractType(account: Address, contractType: ContractType)
    | RestoreSlot(key: StorageKey, previous: Option<Hash>)
    | EraseCode(hash: Hash)
    | EraseContract(contractAddress: Address)
    | PopEvent
    | PopNewContract

  function DropLast<T>(s: seq<T>): seq<T> {
    if s == [] then [] else s[..|s| - 1]
  }

  function Apply(w: World, u: Undo): World {
    match u
    case RestoreBalance(a, x) => SetBalance(w, a, x)
    case RestoreNonce(a, x) => SetNonce(w, a, x)
    case RestoreCodeHash(a, x) => SetCodeHash(w, a, x)
    case RestoreCode(a, x) => SetCode(w, a, x)
    case RestoreContractType(a, x) => SetContractType(w, a, x)
    case RestoreSlot(k, None) => w.(storage := w.storage - {k})
    case RestoreSlot(k, Some(x)) => w.(storage := w.storage[k := x])
    case EraseCode(h) => w.(evmContracts := w.evmContracts - {h})
    case EraseContract(a) => w.(contracts := w.contracts - {a})
    case PopEvent => w.(events := DropLast(w.events))
    case PopNewContract => w.(newContracts := DropLast(w.newContracts))
  }

  /** The world after popping the journal, newest entry first, down to `height` entries. */
  function Rollback(w: World, journal: seq<Undo>, height: nat): World
    decreases |journal|
  {
    if |journal| <= height then w
    else Rollback(Apply(w, journal[|journal| - 1]), journal[..|journal| - 1], height)
  }

  /** `w` was reached from `w0` while the journal grew from `j0` to `j`, and popping it gives `w0` back. */
  predicate Grew(w0: World, j0: seq<Undo>, w: World, j: seq<Undo>) {
    j0 <= j && Rollback(w, j, |j0|) == w0
  }

  lemma {:induction false} RollbackSplits(w: World, j: seq<Undo>, low: nat, high: nat)
    requires low <= high <= |j|
    ensures Rollback(w, j, low) == Rollback(Rollback(w, j, high), j[..high], low)
    decreases |j|
  {
    if |j| == high {
      assert j[..high] == j;
    } else {
      var shorter := j[..|j| - 1];
      RollbackSplits(Apply(w, j[|j| - 1]), shorter, low, high);
      assert shorter[..high] == j[..high];
    }
  }

  lemma GrewTransitive(w0: World, j0: seq<Undo>, w1: World, j1: seq<Undo>, w2: World, j2: seq<Undo>)
    requires Grew(w0, j0, w1, j1) && Grew(w1, j1, w2, j2)
    ensures Grew(w0, j0, w2, j2)
  {
    RollbackSplits(w2, j2, |j0|, |j1|);
    assert j2[..|j1|] == j1;
  }

  /** Popping commutes with a loss of contracts: no entry puts a contract back. */
  lemma {:induction false} RollbackWithout(w: World, j: seq<Undo>, height: nat, lost: set<Address>)
    ensures Rollback(Without(w, lost), j, height) == Without(Rollback(w, j, height), lost)
    decreases |j|
  {
    if |j| > height {
      ApplyWithout(w, j[|j| - 1], lost);
      RollbackWithout(Apply(w, j[|j| - 1]), j[..|j| - 1], height, lost);
    }
  }

  lemma ApplyWithout(w: World, u: Undo, lost: set<Address>)
    ensures Apply(Without(w, lost), u) == Without(Apply(w, u), lost)
  {
    if u.EraseContract? && lost != {} {
      assert w.contracts - lost - {u.contractAddress} == w.contracts - {u.contractAddress} - lost;
    }
  }

  /** Stretches of the journal that restore the world but for some contracts compose. */
  lemma GrewLosing(w0: World, j0: seq<Undo>, w1: World, j1: seq<Undo>, w2: World, j2: seq<Undo>,
                   lost1: set<Address>, lost2: set<Address>)
    requires Grew(Without(w0, lost1), j0, w1, j1) && Grew(Without(w1, lost2), j1, w2, j2)
    ensures Grew(Without(w0, lost1 + lost2), j0, w2, j2)
  {
    RollbackSplits(w2, j2, |j0|, |j1|);
    assert j2[..|j1|] == j1;
    RollbackWithout(w1, j1, |j0|, lost2);
    WithoutTwice(w0, lost1, lost2);
  }

  lemma GrewThenLosing(
    w0: World, j0: seq<Undo>, w1: World, j1: seq<Undo>, w2: World, j2: seq<Undo>, lost: set<Address>)
    requires Grew(w0, j0, w1, j1) && Grew(Without(w1, lost), j1, w2, j2)
    ensures Grew(Without(w0, lost), j0, w2, j2)
  {
    GrewLosing(w0, j0, w1, j1, w2, j2, {}, lost);
    assert {} + lost == lost;
  }

  lemma GrewLosingThen(
    w0: World, j0: seq<Undo>, w1: World, j1: seq<Undo>, w2: World, j2: seq<Undo>, lost: set<Address>)
    requires Grew(Without(w0, lost), j0, w1, j1) && Grew(w1, j1, w2, j2)
    ensures Grew(Without(w0, lost), j0, w2, j2)
  {
    GrewTransitive(Without(w0, lost), j0, w1, j1, w2, j2);
  }

  lemma GrewBy(w0: World, j: seq<Undo>, w: World, u: Undo)
    requires Apply(w, u) == w0
    ensures Grew(w0, j, w, j + [u])
  {
    var longer := j + [u];
    assert longer[..|longer| - 1] == j;
    assert Rollback(w, longer, |j|) == Rollback(w0, j, |j|);
  }

  /** Writing an account field is undone by writing back the value it had. */
  lemma SetAccountUndone(w: World, a: Address, x: Account, f: Account)
    requires f == AccountOf(w, a) && IsCanonical(w.accounts)
    ensures SetAccount(SetAccount(w, a, x), a, f) == w
    ensures AccountOf(SetAccount(w, a, x), a) == x && IsCanonical(SetAccount(w, a, x).accounts)
  {
    PutPut(w.accounts, a, x, f);
    PutLookup(w.accounts, a);
  }
}
