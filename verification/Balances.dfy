/** The sum of all balances, and what each write of the engine does to it. */
module Balances {
  import opened Base
  import opened WorldState
  import opened Snapshot

  ghost function Sum(s: set<Address>, m: Ledger): nat {
    if s == {} then 0
    else
      var a :| a in s;
      Lookup(m, a).balance + Sum(s - {a}, m)
  }

  ghost function Total(w: World): nat {
    Sum(w.accounts.Keys, w.accounts)
  }

  lemma {:induction false} SumTakeOut(s: set<Address>, m: Ledger, a: Address)
    requires a in s
    ensures Sum(s, m) == Lookup(m, a).balance + Sum(s - {a}, m)
  {
    var b :| b in s && Sum(s, m) == Lookup(m, b).balance + Sum(s - {b}, m);
    if a != b {
      SumTakeOut(s - {b}, m, a);
      SumTakeOut(s - {a}, m, b);
      assert s - {b} - {a} == s - {a} - {b};
    }
  }

  lemma {:induction false} SumAgrees(s: set<Address>, m: Ledger, n: Ledger)
    requires forall a :: a in s ==> Lookup(m, a).balance == Lookup(n, a).balance
    ensures Sum(s, m) == Sum(s, n)
  {
    if s != {} {
      var a :| a in s && Sum(s, m) == Lookup(m, a).balance + Sum(s - {a}, m);
      SumAgrees(s - {a}, m, n);
      SumTakeOut(s, n, a);
    }
  }

  // ---------- The balances of all but some accounts ----------

  ghost function Funds(rich: set<Address>, w: World): nat {
    Sum(w.accounts.Keys - rich, w.accounts)
  }

  lemma FundsOfAll(w: World)
    ensures Funds({}, w) == Total(w)
  {
    assert w.accounts.Keys - {} == w.accounts.Keys;
  }

  lemma FundsOver(rich: set<Address>, w: World, a: Address)
    requires a !in rich
    ensures Funds(rich, w) == AccountOf(w, a).balance + Funds(rich + {a}, w)
  {
    var s := w.accounts.Keys - rich;
    assert w.accounts.Keys - (rich + {a}) == s - {a};
    if a in w.accounts {
      SumTakeOut(s, w.accounts, a);
    } else {
      assert s - {a} == s;
    }
  }

  /** Writing an account is felt only outside of the rich ones. */
  lemma FundsSetAccount(rich: set<Address>, w: World, a: Address, x: Account)
    ensures a in rich ==> Funds(rich, SetAccount(w, a, x)) == Funds(rich, w)
    ensures a !in rich ==> Funds(rich, SetAccount(w, a, x)) + AccountOf(w, a).balance == Funds(rich, w) + x.balance
  {
    var after, others := SetAccount(w, a, x), rich + {a};
    assert after.accounts.Keys - others == w.accounts.Keys - others;
    SumAgrees(w.accounts.Keys - others, w.accounts, after.accounts);
    if a in rich {
      assert others == rich;
    } else {
      FundsOver(rich, w, a);
      FundsOver(rich, after, a);
    }
  }

  lemma FundsCredit(rich: set<Address>, w: World, a: Address, amount: nat)
    requires Funds(rich, w) + amount < TWO_TO_256
    ensures Funds(rich, Credit(w, a, amount)) == Funds(rich, w) + if a in rich then 0 else amount
    ensures a !in rich ==> AccountOf(Credit(w, a, amount), a).balance == AccountOf(w, a).balance + amount
  {
    var x := AccountOf(w, a).(balance := Wrap256(AccountOf(w, a).balance + amount));
    if a !in rich {
      FundsOver(rich, w, a);
    }
    FundsSetAccount(rich, w, a, x);
    AccountOfSet(w, a, x, a);
  }

  /** A transfer by an account that is not rich takes nothing from the others but what goes to a rich one. */
  lemma FundsTransfer(rich: set<Address>, w: World, from: Address, to: Address, amount: nat)
    requires from !in rich && amount <= AccountOf(w, from).balance && Funds(rich, w) < TWO_TO_256
    ensures Funds(rich, TransferFunds(w, from, to, amount)) == Funds(rich, w) - if to in rich then amount else 0
  {
    if amount > 0 {
      var balance := AccountOf(w, from).balance;
      FundsSetAccount(rich, w, from, AccountOf(w, from).(balance := balance - amount));
      FundsCredit(rich, SetBalance(w, from, balance - amount), to, amount);
    }
  }

  lemma FundsDeploy(rich: set<Address>, w: World, a: Address, value: nat, codeHash: Hash, code: Bytes)
    requires a !in rich && Funds(rich, w) + value < TWO_TO_256
    ensures Funds(rich, Deploy(w, a, value, codeHash, code)) == Funds(rich, w) + value
  {
    var shared := ShareCode(w, codeHash, code);
    var bytes := shared.evmContracts[codeHash];
    FundsOver(rich, shared, a);
    WriteContractFlat(shared, a, value, codeHash, bytes);
    FundsSetAccount(rich, shared, a, ContractAccount(shared, a, value, codeHash, bytes));
  }

  lemma FundsRegisterContract(rich: set<Address>, w: World, a: Address, instance: nat)
    ensures Funds(rich, RegisterContract(w, a, instance)) == Funds(rich, w)
  {
    var w1 := w.(contracts := w.contracts[a := instance]);
    FundsSetAccount(rich, w1, a, AccountOf(w1, a).(nonce := 1));
    var w2 := SetNonce(w1, a, 1);
    FundsSetAccount(rich, w2, a, AccountOf(w2, a).(contractType := Cpp));
  }

  lemma FundsBump(rich: set<Address>, w: World, a: Address)
    ensures Funds(rich, BumpContractNonce(w, a)) == Funds(rich, w)
  {
    FundsSetAccount(rich, w, a, AccountOf(w, a).(nonce := Wrap64(AccountOf(w, a).nonce + 1)));
  }

  // ---------- The sum of all balances ----------

  /** A transfer conserves the total, also when sender and recipient are the same account. */
  lemma TotalTransfer(w: World, from: Address, to: Address, amount: nat)
    requires amount <= AccountOf(w, from).balance && Total(w) < TWO_TO_256
    ensures Total(TransferFunds(w, from, to, amount)) == Total(w)
  {
    FundsOfAll(w);
    FundsOfAll(TransferFunds(w, from, to, amount));
    FundsTransfer({}, w, from, to, amount);
  }

  lemma TotalDeploy(w: World, a: Address, value: nat, codeHash: Hash, code: Bytes)
    requires Total(w) + value < TWO_TO_256
    ensures Total(Deploy(w, a, value, codeHash, code)) == Total(w) + value
  {
    FundsOfAll(w);
    FundsOfAll(Deploy(w, a, value, codeHash, code));
    FundsDeploy({}, w, a, value, codeHash, code);
  }

  function ContractAccount(w: World, a: Address, value: nat, codeHash: Hash, code: Bytes): Account {
    Account(Wrap256(AccountOf(w, a).balance + value), 1, codeHash, Some(code), Evm)
  }

  /** The five writes of a deployment amount to one. */
  lemma WriteContractFlat(w: World, a: Address, value: nat, codeHash: Hash, code: Bytes)
    ensures WriteContract(w, a, value, codeHash, code)
         == SetAccount(w, a, ContractAccount(w, a, value, codeHash, code))
  {
    var x1 := AccountOf(w, a).(nonce := 1);
    var x2 := x1.(codeHash := codeHash);
    var x3 := x2.(code := Some(code));
    var x4 := x3.(contractType := Evm);
    var w1 := SetAccount(w, a, x1);
    AccountOfSet(w, a, x1, a);
    var w2 := SetAccount(w, a, x2);
    SetAccountTwice(w, a, x1, x2);
    AccountOfSet(w, a, x2, a);
    var w3 := SetAccount(w, a, x3);
    SetAccountTwice(w, a, x2, x3);
    AccountOfSet(w, a, x3, a);
    var w4 := SetAccount(w, a, x4);
    SetAccountTwice(w, a, x3, x4);
    AccountOfSet(w, a, x4, a);
    SetAccountTwice(w, a, x4, ContractAccount(w, a, value, codeHash, code));
    assert SetCode(SetCodeHash(SetNonce(w, a, 1), a, codeHash), a, Some(code)) == w3;
  }
}
