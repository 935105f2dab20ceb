/** Observers that contracts register to be called every so many blocks or microseconds. */
module Observers {
  import opened Base

  /** `due` is a height or a timestamp, `step` the distance to the next call. */
  datatype Observer = Observer(callback: nat, due: nat, step: nat)

  /** A priority queue: only its earliest members are ever looked at. */
  type Queue = multiset<Observer>

  /** What a callback registers: observers of heights and observers of timestamps. */
  datatype Registered = Registered(numbers: seq<Observer>, timestamps: seq<Observer>)

  /** What the n-th callback of a round registers. A contract's observers are queued when it is created,
      and stay queued when the creating message throws later. */
  type Effects = (nat, Observer) -> Registered

  /** Counting one more step does not leave the 64-bit range. */
  predicate InRange(o: Observer, now: nat) {
    1 <= o.step && now + o.step < TWO_TO_64
  }

  /** Every member that is due can be counted on. */
  ghost predicate DueInRange(q: Queue, now: nat) {
    forall o :: o in q && o.due <= now ==> InRange(o, now)
  }

  ghost predicate InFuture(q: Queue, now: nat) {
    forall o :: o in q ==> o.due > now
  }

  /** Registration refuses a step of 0 and counts from the current height or timestamp. */
  ghost predicate Fresh(os: seq<Observer>, now: nat) {
    forall o :: o in os ==> InRange(o, now) && o.due == Wrap64(now + o.step)
  }

  function Again(o: Observer, now: nat): Observer {
    o.(due := Wrap64(now + o.step))
  }

  /** How many of the calls leave `o` behind in the queue. */
  function CountAgain(calls: seq<Observer>, now: nat, o: Observer): nat {
    if calls == [] then 0
    else CountAgain(calls[..|calls| - 1], now, o) + if Again(calls[|calls| - 1], now) == o then 1 else 0
  }

  predicate Ascending(calls: seq<Observer>) {
    forall i, j :: 0 <= i < j < |calls| ==> calls[i].due <= calls[j].due
  }

  /** The calls made so far, and the members of the queue that are still due, are the due members it had. */
  ghost predicate CallsDue(before: Queue, now: nat, calls: seq<Observer>, queue: Queue) {
    forall o :: multiset(calls)[o] + (if o.due <= now then queue[o] else 0)
             == if o.due <= now then before[o] else 0
  }

  /** No member is lost or doubled: those called are in the queue again, one step later. */
  ghost predicate KeepsAll(before: Queue, now: nat, calls: seq<Observer>, registered: seq<Observer>, queue: Queue) {
    forall o :: queue[o] + multiset(calls)[o] == before[o] + CountAgain(calls, now, o) + multiset(registered)[o]
  }

  /** Everything one round of notifications does to a queue: the members that were due are called once
      each, the earliest first, and wait for their next step; nothing is lost and nothing is left due. */
  ghost predicate Round(before: Queue, now: nat, calls: seq<Observer>, registered: seq<Observer>, after: Queue) {
    && (forall o :: multiset(calls)[o] == if o.due <= now then before[o] else 0)
    && Ascending(calls)
    && KeepsAll(before, now, calls, registered, after)
    && InFuture(after, now)
  }

  predicate IsTop(q: Queue, top: Observer) {
    top in q && forall o :: o in q ==> top.due <= o.due
  }

  lemma FreshInFuture(os: seq<Observer>, now: nat)
    requires Fresh(os, now)
    ensures InFuture(multiset(os), now)
  {
  }

  /** The queue after one member has been called, has registered others, and waits for its next step. */
  function Serve(q: Queue, o: Observer, mine: seq<Observer>, now: nat): Queue {
    q - multiset{o} + multiset(mine) + multiset{Again(o, now)}
  }

  lemma ServeCallsDue(before: Queue, now: nat, calls: seq<Observer>, q: Queue, o: Observer, mine: seq<Observer>)
    requires CallsDue(before, now, calls, q) && o in q && o.due <= now && InRange(o, now)
    requires InFuture(multiset(mine), now)
    ensures CallsDue(before, now, calls + [o], Serve(q, o, mine, now))
  {
    var q2 := Serve(q, o, mine, now);
    forall x: Observer
      ensures multiset(calls + [o])[x] + (if x.due <= now then q2[x] else 0) == if x.due <= now then before[x] else 0
    {
      assert x.due <= now ==> x !in multiset(mine) && x != Again(o, now);
    }
  }

  lemma ServeKeepsAll(
    before: Queue, now: nat, calls: seq<Observer>, registered: seq<Observer>, q: Queue, o: Observer, mine: seq<Observer>)
    requires KeepsAll(before, now, calls, registered, q) && o in q
    ensures KeepsAll(before, now, calls + [o], registered + mine,
                     Serve(q, o, mine, now))
  {
    assert (calls + [o])[..|calls|] == calls;
    assert multiset(calls + [o]) == multiset(calls) + multiset{o};
    assert multiset(registered + mine) == multiset(registered) + multiset(mine);
  }

  /** In the middle of a round, about to look at `top`. */
  ghost predicate Midway(
    before: Queue, now: nat, calls: seq<Observer>, registered: seq<Observer>, q: Queue, top: Observer)
  {
    && IsTop(q, top)
    && DueInRange(q, now)
    && CallsDue(before, now, calls, q)
    && KeepsAll(before, now, calls, registered, q)
    && Ascending(calls)
    && (forall i :: 0 <= i < |calls| ==> calls[i].due <= top.due)
    && Fresh(registered, now)
  }

  lemma EmptyRound(now: nat)
    ensures Round(multiset{}, now, [], [], multiset{})
  {
  }

  lemma StartRound(q: Queue, now: nat, top: Observer)
    requires DueInRange(q, now) && IsTop(q, top)
    ensures Midway(q, now, [], [], q, top)
  {
  }

  lemma FreshConcat(a: seq<Observer>, b: seq<Observer>, now: nat)
    requires Fresh(a, now) && Fresh(b, now)
    ensures Fresh(a + b, now)
  {
  }

  lemma ServeInRange(q: Queue, top: Observer, mine: seq<Observer>, now: nat)
    requires DueInRange(q, now) && top in q && InRange(top, now) && Fresh(mine, now)
    ensures DueInRange(Serve(q, top, mine, now), now)
  {
    forall o | o in Serve(q, top, mine, now) && o.due <= now
      ensures InRange(o, now)
    {
      assert o in q || o in multiset(mine) || o == Again(top, now);
    }
  }

  lemma ServeTopLater(q: Queue, top: Observer, mine: seq<Observer>, now: nat, next: Observer)
    requires IsTop(q, top) && top.due <= now && InRange(top, now) && Fresh(mine, now)
    requires next in Serve(q, top, mine, now)
    ensures top.due <= next.due
  {
    assert next in q || next in multiset(mine) || next == Again(top, now);
  }

  lemma CallsAscend(calls: seq<Observer>, top: Observer, next: Observer)
    requires Ascending(calls) && (forall i :: 0 <= i < |calls| ==> calls[i].due <= top.due) && top.due <= next.due
    ensures Ascending(calls + [top]) && forall i :: 0 <= i < |calls + [top]| ==> (calls + [top])[i].due <= next.due
  {
  }

  lemma ServeTop(before: Queue, now: nat, calls: seq<Observer>, registered: seq<Observer>, q: Queue, top: Observer,
                 mine: seq<Observer>, next: Observer)
    requires Midway(before, now, calls, registered, q, top) && top.due <= now && Fresh(mine, now)
    requires IsTop(Serve(q, top, mine, now), next)
    ensures Midway(before, now, calls + [top], registered + mine, Serve(q, top, mine, now), next)
    ensures |calls| < |before|
  {
    var q2 := Serve(q, top, mine, now);
    assert InRange(top, now);
    FreshInFuture(mine, now);
    ServeInRange(q, top, mine, now);
    ServeCallsDue(before, now, calls, q, top, mine);
    ServeKeepsAll(before, now, calls, registered, q, top, mine);
    CallsBounded(before, now, calls + [top], q2);
    ServeTopLater(q, top, mine, now, next);
    CallsAscend(calls, top, next);
    FreshConcat(registered, mine, now);
  }

  lemma FinishRound(
    before: Queue, now: nat, calls: seq<Observer>, registered: seq<Observer>, q: Queue, top: Observer)
    requires Midway(before, now, calls, registered, q, top) && top.due > now
    ensures Round(before, now, calls, registered, q)
  {
    forall o: Observer
      ensures multiset(calls)[o] == if o.due <= now then before[o] else 0
    {
      assert o.due <= now ==> o !in q;
    }
  }

  lemma CallsBounded(before: Queue, now: nat, calls: seq<Observer>, q: Queue)
    requires CallsDue(before, now, calls, q)
    ensures |calls| <= |before|
  {
    assert multiset(calls) <= before;
    assert before == multiset(calls) + (before - multiset(calls));
    assert |multiset(calls)| == |calls|;
  }

  lemma {:induction false} EarliestExists(q: Queue) returns (top: Observer)
    requires q != multiset{}
    ensures IsTop(q, top)
  {
    top :| top in q;
    var rest := q - multiset{top};
    if rest == multiset{} {
      assert q == multiset{top};
    } else {
      var other := EarliestExists(rest);
      assert forall o :: o in q ==> o == top || o in rest;
      if other.due < top.due {
        top := other;
      }
    }
  }

  /** The top of the queue; which one, when several are equally early, is not determined. */
  method Earliest(q: Queue) returns (top: Observer)
    requires q != multiset{}
    ensures IsTop(q, top)
  {
    ghost var some := EarliestExists(q);
    top :| top in q && IsTop(q, top);
  }

  ghost predicate EffectsFresh(effects: Effects, height: nat, timestamp: nat) {
    forall n, o :: Fresh(effects(n, o).numbers, height) && Fresh(effects(n, o).timestamps, timestamp)
  }

  /** Calls the top of the queue as long as it is due. What callbacks register for the other queue is
      handed back; the loop never looks at it. */
  method Drain(queue: Queue, now: nat, ghost other: nat, effects: (nat, Observer) -> (seq<Observer>, seq<Observer>))
    returns (q: Queue, calls: seq<Observer>, mine: seq<Observer>, others: seq<Observer>)
    requires DueInRange(queue, now) && forall n, o :: Fresh(effects(n, o).0, now) && Fresh(effects(n, o).1, other)
    ensures Round(queue, now, calls, mine, q) && Fresh(mine, now) && Fresh(others, other)
  {
    q, calls, mine, others := queue, [], [], [];
    if q == multiset{} {
      EmptyRound(now);
      return;
    }
    var top := Earliest(q);
    StartRound(q, now, top);
    while top.due <= now
      invariant Midway(queue, now, calls, mine, q, top)
      invariant Fresh(others, other)
      decreases |queue| - |calls|
    {
      var (registered, elsewhere) := effects(|calls|, top);
      var next := Earliest(Serve(q, top, registered, now));
      ServeTop(queue, now, calls, mine, q, top, registered, next);
      FreshConcat(others, elsewhere, other);
      q := Serve(q, top, registered, now);
      calls, mine, others, top := calls + [top], mine + registered, others + elsewhere, next;
    }
    FinishRound(queue, now, calls, mine, q, top);
  }

  class BlockObservers {
    var numberQueue: Queue
    var timestampQueue: Queue

    method AddNumber(o: Observer)
      modifies this`numberQueue
      ensures numberQueue == old(numberQueue) + multiset{o}
    {
      numberQueue := numberQueue + multiset{o};
    }

    method AddTimestamp(o: Observer)
      modifies this`timestampQueue
      ensures timestampQueue == old(timestampQueue) + multiset{o}
    {
      timestampQueue := timestampQueue + multiset{o};
    }

    method NotifyNumberQueue(height: nat, ghost timestamp: nat, effects: Effects)
      returns (calls: seq<Observer>, newNumbers: seq<Observer>, newTimestamps: seq<Observer>)
      requires DueInRange(numberQueue, height) && EffectsFresh(effects, height, timestamp)
      modifies this
      ensures Round(old(numberQueue), height, calls, newNumbers, numberQueue)
      ensures timestampQueue == old(timestampQueue) + multiset(newTimestamps)
      ensures Fresh(newNumbers, height) && Fresh(newTimestamps, timestamp)
    {
      numberQueue, calls, newNumbers, newTimestamps := Drain(numberQueue, height, timestamp,
        (n: nat, o: Observer) => (effects(n, o).numbers, effects(n, o).timestamps));
      timestampQueue := timestampQueue + multiset(newTimestamps);
    }

    method NotifyTimestampQueue(ghost height: nat, timestamp: nat, effects: Effects)
      returns (calls: seq<Observer>, newNumbers: seq<Observer>, newTimestamps: seq<Observer>)
      requires DueInRange(timestampQueue, timestamp) && EffectsFresh(effects, height, timestamp)
      modifies this
      ensures Round(old(timestampQueue), timestamp, calls, newTimestamps, timestampQueue)
      ensures numberQueue == old(numberQueue) + multiset(newNumbers)
      ensures Fresh(newNumbers, height) && Fresh(newTimestamps, timestamp)
    {
      timestampQueue, calls, newTimestamps, newNumbers := Drain(timestampQueue, timestamp, height,
        (n: nat, o: Observer) => (effects(n, o).timestamps, effects(n, o).numbers));
      numberQueue := numberQueue + multiset(newNumbers);
    }

    /** One block: both queues make a full round, whatever the callbacks of either register in both. */
    method Notify(height: nat, timestamp: nat, numberEffects: Effects, timestampEffects: Effects)
      returns (numberCalls: seq<Observer>, timestampCalls: seq<Observer>,
               newNumbers: seq<Observer>, newTimestamps: seq<Observer>)
      requires DueInRange(numberQueue, height) && DueInRange(timestampQueue, timestamp)
      requires EffectsFresh(numberEffects, height, timestamp) && EffectsFresh(timestampEffects, height, timestamp)
      modifies this
      ensures Round(old(numberQueue), height, numberCalls, newNumbers, numberQueue)
      ensures Round(old(timestampQueue), timestamp, timestampCalls, newTimestamps, timestampQueue)
      ensures Fresh(newNumbers, height) && Fresh(newTimestamps, timestamp)
    {
      var early, late;
      numberCalls, newNumbers, early := NotifyNumberQueue(height, timestamp, numberEffects);
      ghost var numbers := numberQueue;
      timestampCalls, late, newTimestamps := NotifyTimestampQueue(height, timestamp, timestampEffects);
      FreshInFuture(late, height);
      FreshInFuture(early, timestamp);
      RoundThenAdd(old(numberQueue), height, numberCalls, newNumbers, numbers, late);
      AddThenRound(old(timestampQueue), timestamp, timestampCalls, early, newTimestamps, timestampQueue);
      newNumbers := newNumbers + late;
      newTimestamps := early + newTimestamps;
    }
  }

  lemma RoundThenAdd(
    before: Queue, now: nat, calls: seq<Observer>, registered: seq<Observer>, after: Queue, late: seq<Observer>)
    requires Round(before, now, calls, registered, after) && InFuture(multiset(late), now)
    ensures Round(before, now, calls, registered + late, after + multiset(late))
  {
    assert multiset(registered + late) == multiset(registered) + multiset(late);
  }

  /** Observers that join before a round without being due might as well join in it. */
  lemma AddThenRound(
    before: Queue, now: nat, calls: seq<Observer>, early: seq<Observer>, registered: seq<Observer>, after: Queue)
    requires Round(before + multiset(early), now, calls, registered, after) && InFuture(multiset(early), now)
    ensures Round(before, now, calls, early + registered, after)
  {
    assert forall o: Observer :: o.due <= now ==> multiset(early)[o] == 0;
  }

  // ---------- When the loop ends ----------

  /** Some member is due that cannot be counted on. */
  ghost predicate Stuck(q: Queue, now: nat) {
    exists o :: o in q && o.due <= now && !InRange(o, now)
  }

  /** Counting on brings an observer into the future exactly if its step is in range. */
  lemma AgainDueIff(o: Observer, now: nat)
    requires now < TWO_TO_64 && o.step < TWO_TO_64
    ensures Again(o, now).due <= now <==> !InRange(o, now)
  {
    if now + o.step >= TWO_TO_64 {
      assert Again(o, now).due == now + o.step - TWO_TO_64;
    }
  }

  /** Steps are 64-bit numbers other than 0, and deadlines are counted in 64 bits. */
  ghost predicate Counted(os: seq<Observer>, now: nat) {
    forall o :: o in os ==> 1 <= o.step < TWO_TO_64 && o.due == Wrap64(now + o.step)
  }

  ghost predicate StepsFit(q: Queue) {
    forall o :: o in q ==> o.step < TWO_TO_64
  }

  /** A stretch of the loop: services one after the other, each with what its callback registered. */
  datatype Services = Start(queue: Queue) | More(before: Services, top: Observer, mine: seq<Observer>)

  function Origin(t: Services): Queue {
    if t.Start? then t.queue else Origin(t.before)
  }

  function Last(t: Services, now: nat): Queue {
    if t.Start? then t.queue else Serve(Last(t.before, now), t.top, t.mine, now)
  }

  function Length(t: Services): nat {
    if t.Start? then 0 else Length(t.before) + 1
  }

  /** The loop can make these services: each time the top of the queue, which is due. */
  ghost predicate Runs(t: Services, now: nat) {
    t.More? ==>
      Runs(t.before, now) && IsTop(Last(t.before, now), t.top) && t.top.due <= now && Counted(t.mine, now)
  }

  /** Nothing that callbacks register wraps around. */
  ghost predicate RegistersFresh(t: Services, now: nat) {
    t.More? ==> RegistersFresh(t.before, now) && Fresh(t.mine, now)
  }

  lemma ServeFits(q: Queue, top: Observer, mine: seq<Observer>, now: nat)
    requires StepsFit(q) && top in q && Counted(mine, now)
    ensures StepsFit(Serve(q, top, mine, now))
  {
    forall o | o in Serve(q, top, mine, now)
      ensures o.step < TWO_TO_64
    {
      assert o in q || o in multiset(mine) || o == Again(top, now);
    }
  }

  lemma {:induction false} LastFits(t: Services, now: nat)
    requires Runs(t, now) && StepsFit(Origin(t))
    ensures StepsFit(Last(t, now))
  {
    if t.More? {
      LastFits(t.before, now);
      ServeFits(Last(t.before, now), t.top, t.mine, now);
    }
  }

  /** A member that is due and cannot be counted on stays, whatever is served. */
  lemma StuckStays(q: Queue, now: nat, top: Observer, mine: seq<Observer>)
    requires Stuck(q, now) && top in q && now < TWO_TO_64 && top.step < TWO_TO_64
    ensures Stuck(Serve(q, top, mine, now), now)
  {
    var q2 := Serve(q, top, mine, now);
    var o :| o in q && o.due <= now && !InRange(o, now);
    if o == top {
      AgainDueIff(top, now);
      assert Again(top, now) in q2;
    } else {
      assert o in q2;
    }
  }

  ghost predicate EverStuck(t: Services, now: nat) {
    Stuck(Last(t, now), now) || (t.More? && EverStuck(t.before, now))
  }

  /** Once such a member is there the loop never ends: after any number of services some member is due. */
  lemma {:induction false} StuckForever(t: Services, now: nat)
    requires Runs(t, now) && StepsFit(Origin(t)) && now < TWO_TO_64 && EverStuck(t, now)
    ensures Stuck(Last(t, now), now)
  {
    if t.More? && EverStuck(t.before, now) {
      StuckForever(t.before, now);
      LastFits(t.before, now);
      StuckStays(Last(t.before, now), now, t.top, t.mine);
    }
  }

  /** As long as nothing is stuck, what a callback registers lies in the future. */
  lemma NotStuckFresh(p: Queue, now: nat, top: Observer, mine: seq<Observer>)
    requires Counted(mine, now) && now < TWO_TO_64 && !Stuck(Serve(p, top, mine, now), now)
    ensures Fresh(mine, now)
  {
    forall o | o in mine
      ensures InRange(o, now)
    {
      AgainDueIff(o, now);
      assert o in Serve(p, top, mine, now);
    }
  }

  /** Services that never came upon such a member called members that were due, a different one each time. */
  lemma {:induction false} ServicesCall(t: Services, now: nat, next: Observer)
    returns (calls: seq<Observer>, registered: seq<Observer>)
    requires Runs(t, now) && now < TWO_TO_64 && !EverStuck(t, now) && IsTop(Last(t, now), next)
    ensures |calls| == Length(t) && Midway(Origin(t), now, calls, registered, Last(t, now), next)
  {
    if t.Start? {
      calls, registered := [], [];
      StartRound(t.queue, now, next);
    } else {
      calls, registered := ServicesCall(t.before, now, t.top);
      NotStuckFresh(Last(t.before, now), now, t.top, t.mine);
      ServeTop(Origin(t), now, calls, registered, Last(t.before, now), t.top, t.mine, next);
      calls, registered := calls + [t.top], registered + t.mine;
    }
  }

  /** The loop makes at most as many services as the queue had members, or it has come upon a member that
      is due and cannot be counted on. */
  lemma EndsUnlessStuck(t: Services, now: nat)
    requires Runs(t, now) && StepsFit(Origin(t)) && now < TWO_TO_64
    ensures Length(t) <= |Origin(t)| || Stuck(Last(t, now), now)
  {
    if EverStuck(t, now) {
      StuckForever(t, now);
    } else if t.More? {
      assert Again(t.top, now) in Last(t, now);
      var next := EarliestExists(Last(t, now));
      var calls, registered := ServicesCall(t, now, next);
      CallsBounded(Origin(t), now, calls, Last(t, now));
    }
  }

  /** From a stuck queue the loop makes any number of services. */
  lemma {:induction false} AlwaysMore(q: Queue, now: nat, n: nat) returns (t: Services)
    requires Stuck(q, now) && StepsFit(q) && now < TWO_TO_64
    ensures Origin(t) == q && Length(t) == n && Runs(t, now) && RegistersFresh(t, now)
  {
    if n == 0 {
      t := Start(q);
    } else {
      var before := AlwaysMore(q, now, n - 1);
      StuckOrigin(before, now);
      StuckForever(before, now);
      var top := EarliestExists(Last(before, now));
      t := More(before, top, []);
    }
  }

  lemma {:induction false} StuckOrigin(t: Services, now: nat)
    requires Stuck(Origin(t), now)
    ensures EverStuck(t, now)
  {
    if t.More? {
      StuckOrigin(t.before, now);
    }
  }

  /** No run of the loop is longer than the queue. */
  ghost predicate Ends(q: Queue, now: nat) {
    forall t: Services :: Origin(t) == q && Runs(t, now) && RegistersFresh(t, now) ==> Length(t) <= |q|
  }

  /** If callbacks register nothing that wraps around, the loop ends, however it chooses among equally
      early members, if and only if every member that is due at its start can be counted on. */
  lemma EndsExactly(q: Queue, now: nat)
    requires StepsFit(q) && now < TWO_TO_64
    ensures Ends(q, now) <==> DueInRange(q, now)
  {
    if DueInRange(q, now) {
      forall t: Services | Origin(t) == q && Runs(t, now) && RegistersFresh(t, now)
        ensures Length(t) <= |q|
      {
        LastInRange(t, now);
        EndsUnlessStuck(t, now);
      }
    } else {
      var t := AlwaysMore(q, now, |q| + 1);
    }
  }

  lemma {:induction false} LastInRange(t: Services, now: nat)
    requires Runs(t, now) && RegistersFresh(t, now) && DueInRange(Origin(t), now)
    ensures DueInRange(Last(t, now), now)
  {
    if t.More? {
      LastInRange(t.before, now);
      ServeInRange(Last(t.before, now), t.top, t.mine, now);
    }
  }

  // ---------- The schedule of one observer ----------

  /** The observer after the rounds for heights above `from` up to `until`. */
  function Through(o: Observer, from: nat, until: nat): Observer
    requires from <= until
    decreases until
  {
    if from == until then o
    else
      var p := Through(o, from, until - 1);
      if p.due <= until then Again(p, until) else p
  }

  lemma {:induction false} ThroughCounts(o: Observer, from: nat, until: nat) returns (n: nat)
    requires from <= until && o.due > from && o.step >= 1 && until + o.step < TWO_TO_64
    ensures var p := Through(o, from, until);
      && p == o.(due := o.due + n * o.step) && p.due > until && (n > 0 ==> p.due - o.step <= until)
    decreases until
  {
    if from == until {
      n := 0;
    } else {
      n := ThroughCounts(o, from, until - 1);
      var p := Through(o, from, until - 1);
      if p.due <= until {
        assert (n + 1) * o.step == n * o.step + o.step;
        n := n + 1;
      }
    }
  }

  // ---------- The schedule over a run ----------

  /** `o` is the only member with its callback. */
  ghost predicate Only(q: Queue, o: Observer) {
    q[o] == 1 && forall x :: x in q && x.callback == o.callback ==> x == o
  }

  ghost predicate NoneFor(os: seq<Observer>, callback: nat) {
    forall x :: x in os ==> x.callback != callback
  }

  /** The calls of a round to the callback of `o`. */
  ghost predicate Called(calls: seq<Observer>, callback: nat) {
    exists x :: x in calls && x.callback == callback
  }

  lemma {:induction false} AgainCounts(calls: seq<Observer>, now: nat, o: Observer, x: Observer)
    requires forall y :: y in calls && y.callback == o.callback ==> y == o
    requires x.callback == o.callback
    ensures CountAgain(calls, now, x) == if x == Again(o, now) then multiset(calls)[o] else 0
  {
    if calls != [] {
      var front, last := calls[..|calls| - 1], calls[|calls| - 1];
      assert calls == front + [last];
      AgainCounts(front, now, o, x);
      assert multiset(calls) == multiset(front) + multiset{last};
    }
  }

  /** A run: rounds at consecutive heights, each with its calls and what was registered in it. It starts
      with queue `first` after height `from`, and has come to queue `after` after height `height`. */
  datatype History =
    | Begin(from: nat, first: Queue, height: nat, after: Queue)
    | Next(past: History, from: nat, first: Queue, height: nat, after: Queue,
           calls: seq<Observer>, registered: seq<Observer>)

  ghost predicate Happened(h: History) {
    match h
    case Begin(from, first, height, after) => height == from && after == first
    case Next(past, from, first, height, after, calls, registered) =>
      && Happened(past)
      && from == past.from <= past.height && first == past.first && height == past.height + 1
      && Round(past.after, height, calls, registered, after)
  }

  /** Nothing is registered for a callback in the whole run. */
  ghost predicate NeverAgain(h: History, callback: nat) {
    h.Next? ==> NeverAgain(h.past, callback) && NoneFor(h.registered, callback)
  }

  /** A round calls the only member with a callback once if it is due and not otherwise. */
  lemma CallsOnly(h: History, o: Observer)
    requires Happened(h) && h.Next? && Only(h.past.after, o)
    ensures forall y :: y in h.calls && y.callback == o.callback ==> y == o
    ensures multiset(h.calls)[o] == if o.due <= h.height then 1 else 0
    ensures Called(h.calls, o.callback) <==> o.due <= h.height
  {
    forall y | y in h.calls && y.callback == o.callback
      ensures y == o
    {
      assert y in multiset(h.calls) && y in h.past.after;
    }
    if o.due <= h.height {
      assert o in multiset(h.calls) && o in h.calls;
    } else {
      assert o !in multiset(h.calls);
    }
  }

  /** It leaves it the only one, counted on if it was called. */
  lemma RoundKeepsOnly(h: History, o: Observer)
    requires Happened(h) && h.Next? && Only(h.past.after, o) && NoneFor(h.registered, o.callback)
    ensures Only(h.after, if o.due <= h.height then Again(o, h.height) else o)
  {
    CallsOnly(h, o);
    var next := if o.due <= h.height then Again(o, h.height) else o;
    forall x: Observer | x.callback == o.callback
      ensures h.after[x] == if x == next then 1 else 0
    {
      AgainCounts(h.calls, h.height, o, x);
      assert x !in h.registered;
      assert x != o ==> h.past.after[x] == 0;
    }
  }

  lemma ThroughNext(o: Observer, from: nat, until: nat)
    requires from < until
    ensures var p := Through(o, from, until - 1);
      Through(o, from, until) == if p.due <= until then Again(p, until) else p
  {
  }

  /** A height at which an observer is to be called: its deadline, or any number of steps later. */
  ghost predicate OnSchedule(o: Observer, height: nat) {
    exists n: nat :: height == o.due + n * o.step
  }

  /** The only member with a callback is followed through the run. */
  lemma {:induction false} OnlyThrough(h: History, o: Observer) returns (p: Observer)
    requires Happened(h) && NeverAgain(h, o.callback) && Only(h.first, o)
    ensures p.callback == o.callback && Only(h.after, p)
    ensures h.from <= h.height && p == Through(o, h.from, h.height)
  {
    if h.Begin? {
      p := o;
    } else {
      var before := OnlyThrough(h.past, o);
      RoundKeepsOnly(h, before);
      ThroughNext(o, h.from, h.height);
      p := if before.due <= h.height then Again(before, h.height) else before;
    }
  }

  /** A round's calls to the only member with a callback. */
  lemma CalledOnce(h: History, o: Observer) returns (p: Observer)
    requires Happened(h) && h.Next? && NeverAgain(h, o.callback) && Only(h.first, o)
    ensures h.from <= h.past.height && p == Through(o, h.from, h.past.height)
    ensures Called(h.calls, o.callback) <==> p.due <= h.height
    ensures forall x :: x in h.calls && x.callback == o.callback ==> multiset(h.calls)[x] == 1
  {
    p := OnlyThrough(h.past, o);
    CallsOnly(h, p);
  }

  /** In every run of rounds at consecutive heights, with other observers coming as they please, an
      observer due after the first height is called, and then once, exactly at the heights due + n * step. */
  lemma CalledOnSchedule(h: History, o: Observer)
    requires Happened(h) && h.Next? && NeverAgain(h, o.callback) && Only(h.first, o)
    requires o.due > h.from && o.step >= 1 && h.height + o.step < TWO_TO_64
    ensures Called(h.calls, o.callback) <==> OnSchedule(o, h.height)
    ensures forall x :: x in h.calls && x.callback == o.callback ==> multiset(h.calls)[x] == 1
  {
    var p := CalledOnce(h, o);
    var from, now := h.from, h.height;
    assert p == Through(o, from, now - 1);
    DueOnSchedule(o, from, now);
  }

  lemma DueOnSchedule(o: Observer, from: nat, h: nat)
    requires h > from && o.due > from && o.step >= 1 && h + o.step < TWO_TO_64
    ensures Through(o, from, h - 1).due <= h <==> OnSchedule(o, h)
  {
    var c := ThroughCounts(o, from, h - 1);
    var p := Through(o, from, h - 1);
    if p.due <= h {
      assert h == o.due + c * o.step;
    }
    if n: nat :| h == o.due + n * o.step {
      Between(c, n, o.step);
    }
  }

  lemma Between(c: nat, n: nat, step: nat)
    requires step >= 1 && c * step >= n * step && (c > 0 ==> c * step - step < n * step)
    ensures c == n
  {
    if c < n {
      Multiples(c, n, step);
    } else if c > n {
      Multiples(n, c, step);
    }
  }
}
