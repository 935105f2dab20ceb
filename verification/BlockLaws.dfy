/** Why a validated block can be processed: transactions do not spoil each other. */
module BlockLaws {
  import opened Base
  import opened WorldState
  import opened Messages
  import opened Balances
  import opened MessageLaws
  import opened Snapshot
  import opened Transactions
  import opened WorldInvariant

  predicate DistinctSenders(txs: seq<Tx>) {
    forall i, j :: 0 <= i < j < |txs| ==> txs[i].from != txs[j].from
  }

  /** Every address that has a private key is a plain account, and the balances outside of a set of rich
      keys fit in 256 bits even if `room` more is minted. */
  ghost predicate HealthyBut(c: Config, keys: set<Address>, rich: set<Address>, room: nat, w: World) {
    && rich <= keys && Funds(rich, w) + room < TWO_TO_256
    && (forall k :: k in keys ==> Plain(c, k, w))
  }

  ghost predicate Healthy(c: Config, keys: set<Address>, room: nat, w: World) {
    HealthyBut(c, keys, {}, room, w)
  }

  /** What a transaction may be and do: it is signed by a key, its gas limit is a 64-bit number, and its
      contract creations do not land on keys. */
  predicate Acceptable(c: Config, keys: set<Address>, tx: Tx, b: Behaviour) {
    && tx.from in keys && tx.gasLimit < TWO_TO_64
    && forall k :: k in keys ==> Avoids(ToMessage(tx, b), k)
  }

  /** The senders of the first `n` transactions whose debit may wrap around. */
  function Rich(c: Config, txs: seq<Tx>, n: nat): (rich: set<Address>)
    requires n <= |txs|
    ensures forall a :: a in rich ==> exists p :: 0 <= p < n && txs[p].from == a
  {
    if n == 0 then {} else Rich(c, txs, n - 1) + if Protected(txs[n - 1], c) then {} else {txs[n - 1].from}
  }

  predicate AllProtected(c: Config, txs: seq<Tx>) {
    forall i :: 0 <= i < |txs| ==> Protected(txs[i], c)
  }

  lemma {:induction false} NoneRich(c: Config, txs: seq<Tx>, n: nat)
    requires n <= |txs| && AllProtected(c, txs)
    ensures Rich(c, txs, n) == {}
  {
    if n > 0 {
      NoneRich(c, txs, n - 1);
    }
  }

  function Mints(tx: Tx, b: Behaviour): nat {
    MintBound(ToMessage(tx, b))
  }

  /** The most that the transactions from `i` on can mint. */
  function MintsFrom(txs: seq<Tx>, bs: seq<Behaviour>, i: nat): nat
    requires i <= |txs| == |bs|
    decreases |txs| - i
  {
    if i == |txs| then 0 else Mints(txs[i], bs[i]) + MintsFrom(txs, bs, i + 1)
  }

  /** The first `i` transactions of a block have been processed: their senders' nonces have moved on,
      and everyone else's transaction is as ready as when the block was validated. */
  ghost predicate Progress(c: Config, keys: set<Address>, room: nat, txs: seq<Tx>, i: nat, w: World)
    requires i <= |txs|
  {
    && HealthyBut(c, keys, Rich(c, txs, i), room, w)
    && DistinctSenders(txs[..i])
    && MovedOn(txs, i, w) && OthersReady(txs, i, w)
  }

  /** The sender of transaction `q` is not one of the first `n`. */
  predicate NewSender(txs: seq<Tx>, n: nat, q: nat)
    requires n <= |txs| && q < |txs|
  {
    forall p :: 0 <= p < n ==> txs[p].from != txs[q].from
  }

  ghost predicate MovedOn(txs: seq<Tx>, i: nat, w: World)
    requires i <= |txs|
  {
    forall p :: 0 <= p < i ==> AccountOf(w, txs[p].from).nonce == Wrap64(txs[p].nonce + 1)
  }

  ghost predicate OthersReady(txs: seq<Tx>, i: nat, w: World)
    requires i <= |txs|
  {
    forall q :: i <= q < |txs| && NewSender(txs, i, q) ==> Ready(txs[q], w)
  }

  predicate SignedByKeys(keys: set<Address>, txs: seq<Tx>) {
    forall q :: 0 <= q < |txs| ==> txs[q].from in keys
  }

  /** Transactions of one sender that were all ready in one world carry the same nonce. */
  predicate SameNonces(txs: seq<Tx>) {
    forall i, j :: 0 <= i < |txs| && 0 <= j < |txs| && txs[i].from == txs[j].from ==> txs[i].nonce == txs[j].nonce
  }

  /** What a transaction finds when its turn comes. */
  ghost predicate Turn(c: Config, keys: set<Address>, rich: set<Address>, room: nat, tx: Tx, b: Behaviour, w: World) {
    && HealthyBut(c, keys, rich, Mints(tx, b) + room, w) && Acceptable(c, keys, tx, b)
    && Ready(tx, w) && tx.from !in rich
  }

  function RichAfter(c: Config, rich: set<Address>, tx: Tx): set<Address> {
    rich + if Protected(tx, c) then {} else {tx.from}
  }

  lemma ProcessBounded(c: Config, keys: set<Address>, rich: set<Address>, room: nat, tx: Tx, b: Behaviour, w: World)
    requires Turn(c, keys, rich, room, tx, b, w)
    ensures Runnable(rich, tx, b, c, w) && (Protected(tx, c) ==> Pays(tx, b, c, w))
    ensures Funds(RichAfter(c, rich, tx), Process(tx, b, c, w).value.world) + room < TWO_TO_256
  {
    assert Plain(c, tx.from, w);
    if Protected(tx, c) {
      ProtectedPays(rich, tx, b, c, w);
      FundsDropByFee(rich, tx, b, c, w);
      ProductMonotone(0, Process(tx, b, c, w).value.gasUsed, tx.maxFeePerGas);
      assert RichAfter(c, rich, tx) == rich;
    } else {
      ProcessFunds(rich, tx, b, c, w);
    }
  }

  lemma ProcessSparesKey(
    c: Config, keys: set<Address>, rich: set<Address>, room: nat, tx: Tx, b: Behaviour, w: World, k: Address)
    requires Turn(c, keys, rich, room, tx, b, w) && k in keys && k != tx.from
    ensures var after := Process(tx, b, c, w).value.world;
      Stays(k, w, after) && Plain(c, k, after) && (k !in rich ==> Spares(k, 0, w, after))
  {
    assert Plain(c, k, w) && Avoids(ToMessage(tx, b), k);
    ProcessStays(tx, b, c, w, k);
    if k !in rich {
      ProcessSparesOthers(rich, tx, b, c, w, k);
    }
  }

  /** What a transaction does to keys other than its sender. */
  ghost predicate SparesKeys(keys: set<Address>, rich: set<Address>, from: Address, w: World, after: World) {
    forall k :: k in keys && k != from ==> Stays(k, w, after) && (k !in rich ==> Spares(k, 0, w, after))
  }

  ghost predicate Moved(
    c: Config, keys: set<Address>, rich: set<Address>, room: nat, tx: Tx, w: World, after: World)
  {
    && HealthyBut(c, keys, RichAfter(c, rich, tx), room, after)
    && AccountOf(after, tx.from).nonce == Wrap64(tx.nonce + 1)
    && SparesKeys(keys, rich, tx.from, w, after)
  }

  /** A transaction keeps the world healthy, but for its sender if the debit wraps around, and leaves other
      plain accounts as ready as they were. */
  lemma ProcessHealthy(c: Config, keys: set<Address>, rich: set<Address>, room: nat, tx: Tx, b: Behaviour, w: World)
    requires Turn(c, keys, rich, room, tx, b, w)
    ensures Moved(c, keys, rich, room, tx, w, Process(tx, b, c, w).value.world)
  {
    var after := Process(tx, b, c, w).value.world;
    ProcessBounded(c, keys, rich, room, tx, b, w);
    ProcessCountsNonce(tx, b, c, w);
    forall k | k in keys && k != tx.from
      ensures Stays(k, w, after) && Plain(c, k, after) && (k !in rich ==> Spares(k, 0, w, after))
    {
      ProcessSparesKey(c, keys, rich, room, tx, b, w, k);
    }
  }

  /** Who has been processed before has moved on, and is not the next sender. */
  lemma AdvancePast(txs: seq<Tx>, i: nat, w: World)
    requires i < |txs| && MovedOn(txs, i, w) && SameNonces(txs) && Ready(txs[i], w)
    ensures NewSender(txs, i, i)
  {
    forall p | 0 <= p < i
      ensures txs[p].from != txs[i].from
    {
      NonceMoves(txs[p].nonce);
    }
  }

  /** So the next sender is not rich. */
  lemma TakesTurn(c: Config, keys: set<Address>, room: nat, txs: seq<Tx>, i: nat, b: Behaviour, w: World)
    requires i < |txs| && Progress(c, keys, Mints(txs[i], b) + room, txs, i, w) && SameNonces(txs)
    requires Acceptable(c, keys, txs[i], b) && Ready(txs[i], w)
    ensures Turn(c, keys, Rich(c, txs, i), room, txs[i], b, w) && NewSender(txs, i, i)
  {
    AdvancePast(txs, i, w);
  }

  lemma MovedOnNext(
    c: Config, keys: set<Address>, rich: set<Address>, room: nat, txs: seq<Tx>, i: nat, w: World, after: World)
    requires i < |txs| && MovedOn(txs, i, w) && NewSender(txs, i, i) && SignedByKeys(keys, txs)
    requires Moved(c, keys, rich, room, txs[i], w, after)
    ensures MovedOn(txs, i + 1, after)
  {
    forall p | 0 <= p < i
      ensures AccountOf(after, txs[p].from).nonce == Wrap64(txs[p].nonce + 1)
    {
      assert Stays(txs[p].from, w, after);
    }
  }

  lemma ReadyNext(
    c: Config, keys: set<Address>, room: nat, txs: seq<Tx>, i: nat, w: World, after: World)
    requires i < |txs| && OthersReady(txs, i, w) && SignedByKeys(keys, txs)
    requires Moved(c, keys, Rich(c, txs, i), room, txs[i], w, after)
    ensures OthersReady(txs, i + 1, after)
  {
    forall q | i + 1 <= q < |txs| && NewSender(txs, i + 1, q)
      ensures Ready(txs[q], after)
    {
      assert NewSender(txs, i, q) && txs[i].from != txs[q].from;
      assert txs[q].from !in Rich(c, txs, i);
      assert Spares(txs[q].from, 0, w, after);
    }
  }

  lemma DistinctNext(txs: seq<Tx>, i: nat)
    requires i < |txs| && DistinctSenders(txs[..i]) && NewSender(txs, i, i)
    ensures DistinctSenders(txs[..i + 1])
  {
    assert forall p, q :: 0 <= p < q < i ==> txs[..i][p].from != txs[..i][q].from;
  }

  lemma Advance(
    c: Config, keys: set<Address>, room: nat, txs: seq<Tx>, i: nat, b: Behaviour, w: World)
    requires i < |txs| && Progress(c, keys, Mints(txs[i], b) + room, txs, i, w) && SameNonces(txs)
    requires Acceptable(c, keys, txs[i], b) && Ready(txs[i], w) && SignedByKeys(keys, txs)
    ensures Progress(c, keys, room, txs, i + 1, Process(txs[i], b, c, w).value.world)
  {
    TakesTurn(c, keys, room, txs, i, b, w);
    ProcessHealthy(c, keys, Rich(c, txs, i), room, txs[i], b, w);
    AdvanceTo(c, keys, Mints(txs[i], b) + room, room, txs, i, w, Process(txs[i], b, c, w).value.world);
  }

  lemma AdvanceTo(
    c: Config, keys: set<Address>, before: nat, room: nat, txs: seq<Tx>, i: nat, w: World, after: World)
    requires i < |txs| && Progress(c, keys, before, txs, i, w) && NewSender(txs, i, i) && SignedByKeys(keys, txs)
    requires Moved(c, keys, Rich(c, txs, i), room, txs[i], w, after)
    ensures Progress(c, keys, room, txs, i + 1, after)
  {
    MovedOnNext(c, keys, Rich(c, txs, i), room, txs, i, w, after);
    ReadyNext(c, keys, room, txs, i, w, after);
    DistinctNext(txs, i);
  }

  /** A transaction that is not ready when its turn comes has a sender that had its turn before. */
  lemma NotReadyRepeats(c: Config, keys: set<Address>, room: nat, txs: seq<Tx>, i: nat, w: World)
    requires i < |txs| && Progress(c, keys, room, txs, i, w) && !Ready(txs[i], w)
    ensures Repeats(txs, i) && !DistinctSenders(txs)
  {
    assert !NewSender(txs, i, i);
  }

  /** The sender of transaction `i` had its turn before. */
  ghost predicate Repeats(txs: seq<Tx>, i: nat) {
    i < |txs| && exists p :: 0 <= p < i && txs[p].from == txs[i].from
  }

  lemma ReadySameNonces(txs: seq<Tx>, w: World)
    requires forall i :: 0 <= i < |txs| ==> Ready(txs[i], w)
    ensures SameNonces(txs)
  {
  }

  lemma NonceMoves(nonce: nat)
    ensures Wrap64(nonce + 1) != nonce
  {
  }

  // ---------- A block as a whole ----------

  /** The world after the first `n` transactions, run one after the other; nothing if one is not ready. */
  function ProcessFirst(txs: seq<Tx>, bs: seq<Behaviour>, c: Config, w: World, n: nat): Option<World>
    requires n <= |txs| == |bs|
  {
    if n == 0 then Some(w)
    else
      var before := ProcessFirst(txs, bs, c, w, n - 1);
      if before.None? then None
      else
        var r := Process(txs[n - 1], bs[n - 1], c, before.value);
        if r.None? then None else Some(r.value.world)
  }

  /** What the senders of the first `n` transactions pay for gas. */
  function FeesOfFirst(txs: seq<Tx>, bs: seq<Behaviour>, c: Config, w: World, n: nat): nat
    requires n <= |txs| == |bs|
  {
    if n == 0 then 0
    else
      var before := ProcessFirst(txs, bs, c, w, n - 1);
      var r := if before.None? then None else Process(txs[n - 1], bs[n - 1], c, before.value);
      FeesOfFirst(txs, bs, c, w, n - 1) + Fee(txs[n - 1], r)
  }

  function Fee(tx: Tx, r: Option<Receipt>): nat {
    if r.None? then 0 else r.value.gasUsed * tx.maxFeePerGas
  }

  /** What the creations of the first `n` transactions mint. */
  function MintedByFirst(txs: seq<Tx>, bs: seq<Behaviour>, c: Config, w: World, n: nat): nat
    requires n <= |txs| == |bs|
  {
    if n == 0 then 0
    else
      var before := ProcessFirst(txs, bs, c, w, n - 1);
      var r := if before.None? then None else Process(txs[n - 1], bs[n - 1], c, before.value);
      MintedByFirst(txs, bs, c, w, n - 1) + Minted(r)
  }

  function Minted(r: Option<Receipt>): nat {
    if r.None? then 0 else r.value.run.minted
  }

  lemma ProcessDropsByFee(c: Config, keys: set<Address>, room: nat, tx: Tx, b: Behaviour, w: World)
    requires Turn(c, keys, {}, room, tx, b, w) && Protected(tx, c)
    ensures var r := Process(tx, b, c, w); Total(r.value.world) + Fee(tx, r) == Total(w) + Minted(r)
  {
    ProcessBounded(c, keys, {}, room, tx, b, w);
    TotalDropsByFee(tx, b, c, w);
  }

  lemma {:induction false} FailureStays(txs: seq<Tx>, bs: seq<Behaviour>, c: Config, w: World, m: nat, n: nat)
    requires m <= n <= |txs| == |bs| && ProcessFirst(txs, bs, c, w, m).None?
    ensures ProcessFirst(txs, bs, c, w, n).None?
    decreases n
  {
    if m < n {
      FailureStays(txs, bs, c, w, m, n - 1);
    }
  }

  lemma NotReadyFails(txs: seq<Tx>, bs: seq<Behaviour>, c: Config, w: World, i: nat, before: World)
    requires i < |txs| == |bs| && ProcessFirst(txs, bs, c, w, i) == Some(before) && !Ready(txs[i], before)
    ensures ProcessFirst(txs, bs, c, w, i + 1) == None
  {
  }

  /** What transaction `k` finds and leaves. */
  lemma FirstStep(txs: seq<Tx>, bs: seq<Behaviour>, c: Config, w: World, k: nat, before: World) returns (r: Receipt)
    requires k < |txs| == |bs| && ProcessFirst(txs, bs, c, w, k) == Some(before) && ProcessFirst(txs, bs, c, w, k + 1).Some?
    ensures Ready(txs[k], before) && Process(txs[k], bs[k], c, before) == Some(r)
    ensures ProcessFirst(txs, bs, c, w, k + 1) == Some(r.world)
    ensures FeesOfFirst(txs, bs, c, w, k + 1) == FeesOfFirst(txs, bs, c, w, k) + r.gasUsed * txs[k].maxFeePerGas
    ensures MintedByFirst(txs, bs, c, w, k + 1) == MintedByFirst(txs, bs, c, w, k) + r.run.minted
  {
    r := Process(txs[k], bs[k], c, before).value;
  }

  /** Transaction `n` finds a healthy world and leaves one. */
  lemma HealthyStep(c: Config, keys: set<Address>, room: nat, txs: seq<Tx>, bs: seq<Behaviour>, n: nat, w: World)
    requires n < |txs| == |bs| && Acceptable(c, keys, txs[n], bs[n]) && Ready(txs[n], w) && Protected(txs[n], c)
    requires Healthy(c, keys, room + MintsFrom(txs, bs, n), w)
    ensures Turn(c, keys, {}, room + MintsFrom(txs, bs, n + 1), txs[n], bs[n], w)
    ensures Healthy(c, keys, room + MintsFrom(txs, bs, n + 1), Process(txs[n], bs[n], c, w).value.world)
  {
    var more := room + MintsFrom(txs, bs, n + 1);
    assert room + MintsFrom(txs, bs, n) == Mints(txs[n], bs[n]) + more;
    ProcessHealthy(c, keys, {}, more, txs[n], bs[n], w);
    assert RichAfter(c, {}, txs[n]) == {};
  }

  // ---------- The loop over a block ----------

  /** The loop stands at transaction `i`, in world `w`. */
  ghost predicate AtTx(
    c: Config, keys: set<Address>, room: nat, txs: seq<Tx>, bs: seq<Behaviour>, start: World, i: nat, w: World)
  {
    && i <= |txs| == |bs|
    && Progress(c, keys, room + MintsFrom(txs, bs, i), txs, i, w)
    && ProcessFirst(txs, bs, c, start, i) == Some(w)
  }

  lemma StartBlock(c: Config, keys: set<Address>, room: nat, txs: seq<Tx>, bs: seq<Behaviour>, w: World)
    requires |txs| == |bs| && Healthy(c, keys, room + MintsFrom(txs, bs, 0), w)
    requires forall i :: 0 <= i < |txs| ==> Ready(txs[i], w)
    ensures AtTx(c, keys, room, txs, bs, w, 0, w)
  {
  }

  lemma NextTx(
    c: Config, keys: set<Address>, room: nat, txs: seq<Tx>, bs: seq<Behaviour>, start: World, i: nat, w: World)
    requires i < |txs| == |bs| && AtTx(c, keys, room, txs, bs, start, i, w) && SameNonces(txs) && Ready(txs[i], w)
    requires forall q :: 0 <= q < |txs| ==> Acceptable(c, keys, txs[q], bs[q])
    ensures AtTx(c, keys, room, txs, bs, start, i + 1, Process(txs[i], bs[i], c, w).value.world)
  {
    var more := room + MintsFrom(txs, bs, i + 1);
    assert room + MintsFrom(txs, bs, i) == Mints(txs[i], bs[i]) + more;
    AllSigned(c, keys, txs, bs);
    Advance(c, keys, more, txs, i, bs[i], w);
    NextFirst(txs, bs, c, start, i, w);
  }

  lemma AllSigned(c: Config, keys: set<Address>, txs: seq<Tx>, bs: seq<Behaviour>)
    requires |txs| == |bs| && forall q :: 0 <= q < |txs| ==> Acceptable(c, keys, txs[q], bs[q])
    ensures SignedByKeys(keys, txs)
  {
    forall q | 0 <= q < |txs|
      ensures txs[q].from in keys
    {
      assert Acceptable(c, keys, txs[q], bs[q]);
    }
  }

  lemma NextFirst(txs: seq<Tx>, bs: seq<Behaviour>, c: Config, start: World, i: nat, w: World)
    requires i < |txs| == |bs| && ProcessFirst(txs, bs, c, start, i) == Some(w) && Ready(txs[i], w)
    ensures ProcessFirst(txs, bs, c, start, i + 1) == Some(Process(txs[i], bs[i], c, w).value.world)
  {
  }

  /** The first `done` transactions were processed: all of them, or all before a sender repeats. */
  ghost predicate Stopped(
    c: Config, txs: seq<Tx>, bs: seq<Behaviour>, start: World, completed: bool, done: nat, after: World)
  {
    && done <= |txs| == |bs| && DistinctSenders(txs[..done])
    && ProcessFirst(txs, bs, c, start, done) == Some(after)
    && if completed then done == |txs| else Repeats(txs, done)
  }

  /** How the loop over a block ends: it completes if and only if no sender repeats. It stops at the first
      sender that does, what was done before is not taken back, and the world is healthy, but for senders
      whose debit wrapped around. */
  ghost predicate BlockEnds(
    c: Config, keys: set<Address>, room: nat, txs: seq<Tx>, bs: seq<Behaviour>, start: World,
    completed: bool, done: nat, after: World)
  {
    && (completed <==> DistinctSenders(txs))
    && Stopped(c, txs, bs, start, completed, done, after)
    && ProcessFirst(txs, bs, c, start, |txs|) == (if completed then Some(after) else None)
    && HealthyBut(c, keys, Rich(c, txs, done), room, after)
    && (AllProtected(c, txs) ==> Healthy(c, keys, room, after))
  }

  /** The loop stops where a sender occurs for the second time. */
  lemma StopAtTx(
    c: Config, keys: set<Address>, room: nat, txs: seq<Tx>, bs: seq<Behaviour>, start: World, i: nat, w: World)
    requires i < |txs| == |bs| && AtTx(c, keys, room, txs, bs, start, i, w) && !Ready(txs[i], w)
    ensures BlockEnds(c, keys, room, txs, bs, start, false, i, w)
  {
    NotReadyRepeats(c, keys, room + MintsFrom(txs, bs, i), txs, i, w);
    StopFails(txs, bs, c, start, i, w);
    EndsHealthy(c, keys, room, txs, bs, start, i, w);
  }

  lemma StopFails(txs: seq<Tx>, bs: seq<Behaviour>, c: Config, start: World, i: nat, w: World)
    requires i < |txs| == |bs| && ProcessFirst(txs, bs, c, start, i) == Some(w) && !Ready(txs[i], w)
    ensures ProcessFirst(txs, bs, c, start, |txs|) == None
  {
    NotReadyFails(txs, bs, c, start, i, w);
    FailureStays(txs, bs, c, start, i + 1, |txs|);
  }

  lemma FinishBlock(
    c: Config, keys: set<Address>, room: nat, txs: seq<Tx>, bs: seq<Behaviour>, start: World, w: World)
    requires AtTx(c, keys, room, txs, bs, start, |txs|, w)
    ensures BlockEnds(c, keys, room, txs, bs, start, true, |txs|, w)
  {
    assert txs[..|txs|] == txs;
    EndsHealthy(c, keys, room, txs, bs, start, |txs|, w);
  }

  lemma EndsHealthy(
    c: Config, keys: set<Address>, room: nat, txs: seq<Tx>, bs: seq<Behaviour>, start: World, i: nat, w: World)
    requires AtTx(c, keys, room, txs, bs, start, i, w)
    ensures HealthyBut(c, keys, Rich(c, txs, i), room, w) && (AllProtected(c, txs) ==> Healthy(c, keys, room, w))
  {
    if AllProtected(c, txs) {
      NoneRich(c, txs, i);
    }
  }

  /** A block lowers the sum of all balances by exactly the fees of its transactions, up to what their
      creations minted. */
  lemma {:induction false} BlockDropsByFees(
    c: Config, keys: set<Address>, txs: seq<Tx>, bs: seq<Behaviour>, w: World, n: nat) returns (after: World)
    requires n <= |txs| == |bs| && Healthy(c, keys, MintsFrom(txs, bs, 0), w)
    requires AllProtected(c, txs) && forall i :: 0 <= i < |txs| ==> Acceptable(c, keys, txs[i], bs[i])
    requires ProcessFirst(txs, bs, c, w, n).Some?
    ensures Accounted(c, keys, txs, bs, w, n, after)
  {
    if n == 0 {
      after := w;
    } else {
      var k := n - 1;
      assert ProcessFirst(txs, bs, c, w, k).Some?;
      var before := BlockDropsByFees(c, keys, txs, bs, w, k);
      after := DropStep(c, keys, txs, bs, w, k, before);
    }
  }

  /** The world after the first `n` transactions, and where its total comes from. */
  ghost predicate Accounted(
    c: Config, keys: set<Address>, txs: seq<Tx>, bs: seq<Behaviour>, w: World, n: nat, after: World)
    requires n <= |txs| == |bs|
  {
    && ProcessFirst(txs, bs, c, w, n) == Some(after) && Healthy(c, keys, MintsFrom(txs, bs, n), after)
    && Total(after) + FeesOfFirst(txs, bs, c, w, n) == Total(w) + MintedByFirst(txs, bs, c, w, n)
  }

  lemma DropStep(c: Config, keys: set<Address>, txs: seq<Tx>, bs: seq<Behaviour>, w: World, k: nat, before: World)
    returns (after: World)
    requires k < |txs| == |bs| && Accounted(c, keys, txs, bs, w, k, before) && ProcessFirst(txs, bs, c, w, k + 1).Some?
    requires Protected(txs[k], c) && Acceptable(c, keys, txs[k], bs[k])
    ensures Accounted(c, keys, txs, bs, w, k + 1, after)
  {
    var r := FirstStep(txs, bs, c, w, k, before);
    HealthyDrop(c, keys, txs, bs, k, before, r);
    after := r.world;
  }

  lemma HealthyDrop(
    c: Config, keys: set<Address>, txs: seq<Tx>, bs: seq<Behaviour>, k: nat, before: World, r: Receipt)
    requires k < |txs| == |bs| && Acceptable(c, keys, txs[k], bs[k]) && Ready(txs[k], before) && Protected(txs[k], c)
    requires Healthy(c, keys, MintsFrom(txs, bs, k), before) && Process(txs[k], bs[k], c, before) == Some(r)
    ensures Healthy(c, keys, MintsFrom(txs, bs, k + 1), r.world)
    ensures Total(r.world) + r.gasUsed * txs[k].maxFeePerGas == Total(before) + r.run.minted
  {
    HealthyStep(c, keys, 0, txs, bs, k, before);
    ProcessDropsByFee(c, keys, MintsFrom(txs, bs, k + 1), txs[k], bs[k], before);
  }

  /** The first `n` transactions leave a world that satisfies the invariant of the shared code table. */
  ghost predicate SaneAfter(txs: seq<Tx>, bs: seq<Behaviour>, c: Config, w: World, n: nat)
    requires n <= |txs| == |bs|
  {
    var after := ProcessFirst(txs, bs, c, w, n);
    after.Some? ==> Sane(c, after.value)
  }

  /** A block keeps the invariant of the shared code table. */
  lemma {:induction false} BlockSane(txs: seq<Tx>, bs: seq<Behaviour>, c: Config, w: World, n: nat)
    requires n <= |txs| == |bs| && Sane(c, w)
    ensures SaneAfter(txs, bs, c, w, n)
  {
    if n > 0 {
      var k := n - 1;
      BlockSane(txs, bs, c, w, k);
      SaneStep(txs, bs, c, w, k);
    }
  }

  lemma SaneStep(txs: seq<Tx>, bs: seq<Behaviour>, c: Config, w: World, k: nat)
    requires k < |txs| == |bs| && SaneAfter(txs, bs, c, w, k)
    ensures SaneAfter(txs, bs, c, w, k + 1)
  {
    if ProcessFirst(txs, bs, c, w, k + 1).Some? {
      ProcessSane(txs[k], bs[k], c, ProcessFirst(txs, bs, c, w, k).value);
    }
  }

  lemma ProcessSane(tx: Tx, b: Behaviour, c: Config, w: World)
    requires Sane(c, w) && Ready(tx, w)
    ensures Sane(c, Process(tx, b, c, w).value.world)
  {
    ExecuteSane(c, tx.from, ToMessage(tx, b), Wrap64(tx.gasLimit), w);
    var r := Start(tx, b, c, w);
    ChargeSane(c, tx, Wrap64(Wrap256(tx.gasLimit - r.gas)), Settle(r.world));
  }

  lemma ChargeSane(c: Config, tx: Tx, gasUsed: nat, w: World)
    requires Sane(c, w)
    ensures Sane(c, Charge(tx, gasUsed, w))
  {
    var sender := AccountOf(w, tx.from);
    SetAccountSane(c, w, tx.from, sender.(
      nonce := Wrap64(sender.nonce + 1),
      balance := Wrap256(sender.balance - Wrap256(gasUsed * tx.maxFeePerGas))));
  }
}
