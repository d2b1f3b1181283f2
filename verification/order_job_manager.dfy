/** The order generator: a table of running jobs keyed by customer id, and the work each
    job does: one order-creation cycle at once, then one per timer tick until its
    cancellation token fires.

    The table is modelled sequentially. In the service it is a concurrent dictionary
    whose `StartJob` checks for the key and then inserts in two separate steps, so two
    concurrent starts for one customer can both pass the check; that window is not
    modelled. Timers are abstract: a run is a trace of the cycles that happen. */
module OrderJobManager {
  import opened Common
  import opened Store
  import opened OrdersHub

  // ---------------------------------------------------------------------------
  // The job table

  /** Identifies one cancellation token source. */
  type TokenId = nat

  datatype TokenState = Live | Cancelled

  /** One background task started by `StartJob`, bound to one token. */
  datatype Launch = Launch(customerId: int, token: TokenId)

  /** `jobs` is the table (customer id -> token); `tokens` records the state of every
      token ever created; `launched` lists the background tasks in the order started. */
  datatype Registry = Registry(jobs: map<int, TokenId>, tokens: map<TokenId, TokenState>,
                               nextToken: TokenId, launched: seq<Launch>)

  const EmptyRegistry: Registry := Registry(map[], map[], 0, [])

  /** Every table entry holds its own live token, and fresh tokens are really fresh. */
  predicate Valid(r: Registry) {
    && (forall id :: id in r.jobs ==> r.jobs[id] in r.tokens && r.tokens[r.jobs[id]] == Live)
    && (forall t :: t in r.tokens ==> t < r.nextToken)
    && (forall a, b :: a in r.jobs && b in r.jobs && a != b ==> r.jobs[a] != r.jobs[b])
  }

  lemma EmptyRegistryValid()
    ensures Valid(EmptyRegistry)
  {
  }

  /** `StartJob`: a customer already in the table is left alone; otherwise a new live
      token is stored under the id and one background task is launched with it. */
  function StartJob(r: Registry, customerId: int): (r': Registry)
    ensures customerId in r.jobs ==> r' == r
    ensures customerId !in r.jobs ==>
      && r'.jobs.Keys == r.jobs.Keys + {customerId}
      && (forall id :: id in r.jobs ==> r'.jobs[id] == r.jobs[id])
      && r'.jobs[customerId] in r'.tokens && r'.tokens[r'.jobs[customerId]] == Live
      && r'.launched == r.launched + [Launch(customerId, r'.jobs[customerId])]
    ensures Valid(r) && customerId !in r.jobs ==>
      && r'.jobs[customerId] !in r.tokens
      && (forall t :: t in r.tokens ==> t in r'.tokens && r'.tokens[t] == r.tokens[t])
    ensures Valid(r) ==> Valid(r')
  {
    if customerId in r.jobs then
      r
    else
      var t := r.nextToken;
      Registry(r.jobs[customerId := t], r.tokens[t := Live], t + 1, r.launched + [Launch(customerId, t)])
  }

  /** `StopJob`: an absent id changes nothing; otherwise the entry is removed and its
      token cancelled, and nothing else changes. */
  function StopJob(r: Registry, customerId: int): (r': Registry)
    ensures customerId !in r.jobs ==> r' == r
    ensures customerId in r.jobs ==>
      && r'.jobs.Keys == r.jobs.Keys - {customerId}
      && (forall id :: id in r'.jobs ==> r'.jobs[id] == r.jobs[id])
      && r.jobs[customerId] in r'.tokens && r'.tokens[r.jobs[customerId]] == Cancelled
      && (forall t :: t in r.tokens && t != r.jobs[customerId] ==> t in r'.tokens && r'.tokens[t] == r.tokens[t])
      && r'.launched == r.launched
    ensures Valid(r) ==> Valid(r')
  {
    if customerId in r.jobs then
      var t := r.jobs[customerId];
      Registry(r.jobs - {customerId}, r.tokens[t := Cancelled], r.nextToken, r.launched)
    else
      r
  }

  /** Starting twice is starting once: one table entry and one launched task. */
  lemma StartJobTwice(r: Registry, customerId: int)
    ensures StartJob(StartJob(r, customerId), customerId) == StartJob(r, customerId)
    ensures |StartJob(r, customerId).launched| <= |r.launched| + 1
  {
  }

  /** Stopping twice is stopping once. */
  lemma StopJobTwice(r: Registry, customerId: int)
    ensures StopJob(StopJob(r, customerId), customerId) == StopJob(r, customerId)
  {
  }

  /** Starting a job for an absent customer and then stopping it leaves the table as it
      was; the task that ran in between holds a cancelled token. */
  lemma StartThenStop(r: Registry, customerId: int)
    requires Valid(r) && customerId !in r.jobs
    ensures var r' := StopJob(StartJob(r, customerId), customerId);
            && r'.jobs == r.jobs
            && r'.tokens[Last(r'.launched).token] == Cancelled
  {
    var s := StartJob(r, customerId);
    assert s.jobs - {customerId} == r.jobs;
  }

  function Last<T>(s: seq<T>): T
    requires |s| > 0
  {
    s[|s| - 1]
  }

  /** What `WaitForNextTickAsync(token)` does: once the token is cancelled the wait throws
      `OperationCanceledException`; while it is live the wait ends with a tick. */
  datatype WaitResult = Ticked | CancellationObserved

  function WaitForNextTick(r: Registry, token: TokenId): (w: WaitResult)
    ensures w == CancellationObserved <==> token in r.tokens && r.tokens[token] == Cancelled
  {
    if token in r.tokens && r.tokens[token] == Cancelled then CancellationObserved else Ticked
  }

  /** After `StopJob`, the stopped job's next wait ends its loop, while every other
      job keeps ticking. */
  lemma StopJobEndsOnlyThatWorker(r: Registry, customerId: int, other: int)
    requires Valid(r) && customerId in r.jobs
    ensures WaitForNextTick(StopJob(r, customerId), r.jobs[customerId]) == CancellationObserved
    ensures other in r.jobs && other != customerId ==>
              WaitForNextTick(StopJob(r, customerId), r.jobs[other]) == Ticked
  {
  }

  // ---------------------------------------------------------------------------
  // One generation cycle

  /** `Random.Shared.Next(100, 5000)`: a whole number in [100, 5000). */
  const MinAmount: int := 100
  const AmountBound: int := 5000
  type Draw = n: int | MinAmount <= n < AmountBound witness MinAmount

  const AutoDescription: string := "Auto-generated order"

  /** The three awaited steps of a cycle, each of which can throw. */
  datatype Stage = Lookup | Save | Send

  /** `OperationCanceledException` (the token fired mid-step), or any other exception. */
  datatype FailureKind = Cancellation | Failure

  datatype Fault = NoFault | FaultAt(stage: Stage, kind: FailureKind)

  /** What the environment supplies to one cycle: the random draw, the clock, and whether
      one of the awaited steps throws. */
  datatype CycleInput = CycleInput(draw: Draw, now: int, fault: Fault)

  datatype CycleOutcome = Completed | CycleCancelled | CycleFailed

  datatype Cycle = Cycle(db: Db, sent: seq<Publication>, outcome: CycleOutcome)

  /** The message sent for a stored order. */
  function PublicationOf(o: Order): Publication {
    Publication(GroupName(o.customerId), OrderCreated(o.customerId, o.id, o.amount, o.createdAt))
  }

  /** An order the generator may have produced for `customerId`. */
  predicate IsGenerated(o: Order, customerId: int) {
    && o.customerId == customerId
    && o.description == AutoDescription
    && MinAmount as real <= o.amount < AmountBound as real
  }

  /** Whether a fault actually interrupts the cycle: the lookup always runs, while the
      save and the send only run for an eligible customer. */
  predicate FaultHits(db: Db, customerId: int, f: Fault) {
    f.FaultAt? && (f.stage == Lookup || IsActiveCustomer(db, customerId))
  }

  function OutcomeOf(kind: FailureKind): CycleOutcome {
    if kind == Cancellation then CycleCancelled else CycleFailed
  }

  /** `CreateOrderOnceAsync`: if the customer exists and is active, store one generated
      order and then send it to the customer's group. Customers are never changed. */
  function CreateOrderOnce(db: Db, customerId: int, input: CycleInput): (c: Cycle)
    ensures c.db.customers == db.customers && c.db.nextCustomerId == db.nextCustomerId
    ensures c.outcome == Completed <==> !FaultHits(db, customerId, input.fault)
    ensures FaultHits(db, customerId, input.fault) ==> c.outcome == OutcomeOf(input.fault.kind)
    // a missing or inactive customer: no order, no message
    ensures !IsActiveCustomer(db, customerId) ==> c.db == db && c.sent == []
    // an eligible customer whose save succeeds: exactly one generated order is appended
    ensures IsActiveCustomer(db, customerId) && (input.fault.NoFault? || input.fault.stage == Send) ==>
      && |c.db.orders| == |db.orders| + 1
      && c.db.orders[..|db.orders|] == db.orders
      && IsGenerated(Last(c.db.orders), customerId)
      && Last(c.db.orders).id == db.nextOrderId
      && Last(c.db.orders).amount == input.draw as real
      && Last(c.db.orders).createdAt == input.now
      && c.db.nextOrderId == db.nextOrderId + 1
    ensures input.fault.FaultAt? && input.fault.stage != Send ==> c.db == db
    // the message is sent only after the save, and carries the stored order
    ensures c.sent != [] <==> IsActiveCustomer(db, customerId) && input.fault == NoFault
    ensures c.sent != [] ==> c.db.orders == db.orders + [Last(c.db.orders)]
                             && c.sent == [PublicationOf(Last(c.db.orders))]
                             && c.sent[0].group == GroupName(customerId)
  {
    if input.fault.FaultAt? && input.fault.stage == Lookup then
      Cycle(db, [], OutcomeOf(input.fault.kind))
    else if !IsActiveCustomer(db, customerId) then
      Cycle(db, [], Completed)
    else
      var order := Order(db.nextOrderId, customerId, AutoDescription, input.draw as real, input.now);
      if input.fault.FaultAt? && input.fault.stage == Save then
        Cycle(db, [], OutcomeOf(input.fault.kind))
      else
        var saved := db.(orders := db.orders + [order], nextOrderId := db.nextOrderId + 1);
        assert saved.orders[..|db.orders|] == db.orders;
        if input.fault.FaultAt? then
          Cycle(saved, [], OutcomeOf(input.fault.kind))
        else
          Cycle(saved, [PublicationOf(order)], Completed)
  }

  // ---------------------------------------------------------------------------
  // The run loop

  datatype RunEnd = EndedByCancellation | EndedByFault

  /** What surrounds one cycle of a run: the customer table as the cycle's lookup finds
      it, which requests served since the previous cycle (an update that activates or
      deactivates the customer, say) may have changed, and the cycle's own input. */
  datatype Step = Step(customers: map<int, Customer>, input: CycleInput)

  /** The store a step's cycle works on: the run's orders and counters, with the customer
      table the step found. */
  function Seen(db: Db, s: Step): Db {
    db.(customers := s.customers)
  }

  /** Whether a fault interrupts the step's cycle. */
  predicate Hits(customerId: int, s: Step) {
    s.input.fault.FaultAt? && (s.input.fault.stage == Lookup || IsActive(s.customers, customerId))
  }

  /** Whether the step's cycle stores an order: the customer is active in the table it
      reads and neither the lookup nor the save throws. */
  predicate Stores(customerId: int, s: Step) {
    IsActive(s.customers, customerId) && (s.input.fault.NoFault? || s.input.fault.stage == Send)
  }

  /** Whether the step's cycle sends a message: the customer is active in the table it
      reads and nothing throws. */
  predicate Sends(customerId: int, s: Step) {
    IsActive(s.customers, customerId) && s.input.fault.NoFault?
  }

  function StoringCycles(customerId: int, steps: seq<Step>): nat {
    if |steps| == 0 then 0 else (if Stores(customerId, steps[0]) then 1 else 0) + StoringCycles(customerId, steps[1..])
  }

  function SendingCycles(customerId: int, steps: seq<Step>): nat {
    if |steps| == 0 then 0 else (if Sends(customerId, steps[0]) then 1 else 0) + SendingCycles(customerId, steps[1..])
  }

  /** A finished run: the store afterwards, the messages sent in order, and how many
      cycles ran. */
  datatype Run = Run(db: Db, sent: seq<Publication>, cycles: nat, end: RunEnd)

  /** The cycles of one job. `steps[0]` is the cycle run at once, each later step is a
      cycle run after a timer tick, and once the steps are used up the next wait observes
      cancellation. A cancellation inside a cycle is swallowed like one observed by the
      wait; any other exception leaves the loop as a fault. */
  function RunCycles(db: Db, customerId: int, steps: seq<Step>): (r: Run)
    requires |steps| >= 1
    decreases |steps|
    ensures 1 <= r.cycles <= |steps|
    // the run writes no customer: afterwards the table is the one its last cycle read
    ensures r.db.customers == steps[r.cycles - 1].customers && r.db.nextCustomerId == db.nextCustomerId
    // a customer missing or inactive in every table the run reads: nothing stored or sent
    ensures (forall k :: 0 <= k < |steps| ==> !IsActive(steps[k].customers, customerId)) ==>
              r.db.orders == db.orders && r.db.nextOrderId == db.nextOrderId && r.sent == []
    ensures |r.sent| <= r.cycles
  {
    var c := CreateOrderOnce(Seen(db, steps[0]), customerId, steps[0].input);
    if c.outcome != Completed || |steps| == 1 then
      var end := if c.outcome == CycleFailed then EndedByFault else EndedByCancellation;
      Run(c.db, c.sent, 1, end)
    else
      var rest := RunCycles(c.db, customerId, steps[1..]);
      assert steps[rest.cycles] == steps[1..][rest.cycles - 1];
      assert (forall k :: 0 <= k < |steps| ==> !IsActive(steps[k].customers, customerId)) ==>
               && !IsActive(steps[0].customers, customerId)
               && forall k :: 0 <= k < |steps| - 1 ==> !IsActive(steps[1..][k].customers, customerId);
      Run(rest.db, c.sent + rest.sent, 1 + rest.cycles, rest.end)
  }

  /** A run stores one order for each of its cycles that found the customer active and got
      past the save, and sends one message for each that found it active and did not
      throw: every cycle decides by the table it reads itself. */
  lemma {:induction false} RunCyclesCountsActiveCycles(db: Db, customerId: int, steps: seq<Step>)
    requires |steps| >= 1
    decreases |steps|
    ensures var r := RunCycles(db, customerId, steps);
            && |r.db.orders| == |db.orders| + StoringCycles(customerId, steps[..r.cycles])
            && |r.sent| == SendingCycles(customerId, steps[..r.cycles])
  {
    var c := CreateOrderOnce(Seen(db, steps[0]), customerId, steps[0].input);
    var r := RunCycles(db, customerId, steps);
    CycleSendsStoredOrder(Seen(db, steps[0]), customerId, steps[0].input);
    if c.outcome != Completed || |steps| == 1 {
      assert steps[..r.cycles] == [steps[0]];
      assert steps[..r.cycles][1..] == [];
    } else {
      var rest := RunCycles(c.db, customerId, steps[1..]);
      RunCyclesCountsActiveCycles(c.db, customerId, steps[1..]);
      assert steps[..r.cycles][0] == steps[0];
      assert steps[..r.cycles][1..] == steps[1..][..rest.cycles];
    }
  }

  /** Activation takes effect at the next cycle: a customer activated between the first
      cycle and the tick gets exactly one order, from the second cycle; one deactivated in
      between gets exactly one, from the first. */
  lemma ActivationTakesEffectAtNextCycle(db: Db, customerId: int, row: Customer, first: CycleInput, tick: CycleInput)
    requires first.fault == NoFault && tick.fault == NoFault
    ensures var off := db.customers[customerId := row.(isActive := false)];
            var on := db.customers[customerId := row.(isActive := true)];
            var activated := RunCycles(db, customerId, [Step(off, first), Step(on, tick)]);
            var deactivated := RunCycles(db, customerId, [Step(on, first), Step(off, tick)]);
            && activated.cycles == 2 && |activated.sent| == 1 && activated.sent[0].event.createdAt == tick.now
            && deactivated.cycles == 2 && |deactivated.sent| == 1 && deactivated.sent[0].event.createdAt == first.now
  {
    var off := db.customers[customerId := row.(isActive := false)];
    var on := db.customers[customerId := row.(isActive := true)];
    var s1 := [Step(off, first), Step(on, tick)];
    var s2 := [Step(on, first), Step(off, tick)];
    assert s1[1..] == [Step(on, tick)] && s2[1..] == [Step(off, tick)];
    assert !IsActive(off, customerId) && IsActive(on, customerId);
  }

  /** How the steps decide a run's length and end: every cycle before the last one
      completed, the last one was hit by a fault unless the steps ran out, and the run
      ended by a fault exactly when that fault is not a cancellation. */
  ghost predicate StopsAtFirstFault(customerId: int, steps: seq<Step>, r: Run) {
    && 1 <= r.cycles <= |steps|
    && (forall k :: 0 <= k < r.cycles - 1 ==> !Hits(customerId, steps[k]))
    && (r.cycles < |steps| ==> Hits(customerId, steps[r.cycles - 1]))
    && (r.end == EndedByFault <==>
          Hits(customerId, steps[r.cycles - 1]) && steps[r.cycles - 1].input.fault.kind == Failure)
  }

  /** The loop stops early exactly at the first cycle that throws, and it ends by a
      fault exactly when that exception is not a cancellation. */
  lemma {:induction false} RunCyclesStopsAtFirstFault(db: Db, customerId: int, steps: seq<Step>)
    requires |steps| >= 1
    decreases |steps|
    ensures StopsAtFirstFault(customerId, steps, RunCycles(db, customerId, steps))
  {
    var c := CreateOrderOnce(Seen(db, steps[0]), customerId, steps[0].input);
    if c.outcome == Completed && |steps| > 1 {
      RunCyclesStopsAtFirstFault(c.db, customerId, steps[1..]);
      LaterCyclesStopAtFirstFault(db, customerId, steps);
    } else {
      var r := RunCycles(db, customerId, steps);
      assert r.cycles == 1;
    }
  }

  /** A completed first cycle followed by a run that stops at its own first fault. */
  lemma LaterCyclesStopAtFirstFault(db: Db, customerId: int, steps: seq<Step>)
    requires |steps| > 1
    requires CreateOrderOnce(Seen(db, steps[0]), customerId, steps[0].input).outcome == Completed
    requires var c := CreateOrderOnce(Seen(db, steps[0]), customerId, steps[0].input);
             StopsAtFirstFault(customerId, steps[1..], RunCycles(c.db, customerId, steps[1..]))
    ensures StopsAtFirstFault(customerId, steps, RunCycles(db, customerId, steps))
  {
    var c := CreateOrderOnce(Seen(db, steps[0]), customerId, steps[0].input);
    var rest := RunCycles(c.db, customerId, steps[1..]);
    RunAfterCompletedCycle(db, customerId, steps);
    assert steps[rest.cycles] == steps[1..][rest.cycles - 1];
    forall k | 0 <= k < rest.cycles ensures !Hits(customerId, steps[k]) {
      if k > 0 {
        assert steps[k] == steps[1..][k - 1];
      }
    }
  }

  /** `after` is `before` followed only by orders generated for `customerId`. */
  ghost predicate AppendsGenerated(before: seq<Order>, after: seq<Order>, customerId: int) {
    && |before| <= |after| && after[..|before|] == before
    && (forall k :: |before| <= k < |after| ==> IsGenerated(after[k], customerId))
  }

  /** A run only appends to the order table, and only generated orders of its own
      customer. */
  lemma {:induction false} RunCyclesAppends(db: Db, customerId: int, steps: seq<Step>)
    requires |steps| >= 1
    decreases |steps|
    ensures AppendsGenerated(db.orders, RunCycles(db, customerId, steps).db.orders, customerId)
  {
    var c := CreateOrderOnce(Seen(db, steps[0]), customerId, steps[0].input);
    CycleAppends(Seen(db, steps[0]), customerId, steps[0].input);
    if c.outcome != Completed || |steps| == 1 {
      assert RunCycles(db, customerId, steps).db == c.db;
    } else {
      var rest := RunCycles(c.db, customerId, steps[1..]);
      RunCyclesAppends(c.db, customerId, steps[1..]);
      RunAfterCompletedCycle(db, customerId, steps);
      AppendsGeneratedTransitive(db.orders, c.db.orders, rest.db.orders, customerId);
    }
  }

  /** One cycle appends at most one generated order. */
  lemma CycleAppends(db: Db, customerId: int, input: CycleInput)
    ensures AppendsGenerated(db.orders, CreateOrderOnce(db, customerId, input).db.orders, customerId)
  {
    var c := CreateOrderOnce(db, customerId, input);
    if |c.db.orders| > |db.orders| {
      assert c.db.orders[|db.orders|] == Last(c.db.orders);
    }
  }

  lemma AppendsGeneratedTransitive(a: seq<Order>, b: seq<Order>, c: seq<Order>, customerId: int)
    requires AppendsGenerated(a, b, customerId) && AppendsGenerated(b, c, customerId)
    ensures AppendsGenerated(a, c, customerId)
  {
    assert c[..|a|] == c[..|b|][..|a|];
    forall k | |a| <= k < |b| ensures IsGenerated(c[k], customerId) {
      assert c[k] == c[..|b|][k];
    }
  }

  /** A cycle's message carries the order it stored, and only a cycle whose send threw
      stores an order without sending it. */
  lemma CycleSendsStoredOrder(db: Db, customerId: int, input: CycleInput)
    ensures var c := CreateOrderOnce(db, customerId, input);
            && |db.orders| <= |c.db.orders|
            && |c.sent| <= 1
            && |c.sent| <= |c.db.orders| - |db.orders| <= |c.sent| + 1
            && (c.outcome == Completed ==> |c.sent| == |c.db.orders| - |db.orders|)
            && (c.sent != [] ==> c.sent[0] == PublicationOf(c.db.orders[|db.orders|]))
            && SentInOrder(db.orders, c.db.orders, c.sent, PublicationOf)
  {
  }

  /** Each message of a run carries the order stored in the same cycle, and at most the
      last order stored after `before` goes unsent (its send threw). */
  ghost predicate SendsStoredOrders(before: seq<Order>, r: Run) {
    SentInOrder(before, r.db.orders, r.sent, PublicationOf)
  }

  /** `sent[k]` is the message `f` builds from the `k`-th element of `orders` after the
      prefix of length `|before|`, and at most the last of those elements has no message. */
  ghost predicate SentInOrder<T, U>(before: seq<T>, orders: seq<T>, sent: seq<U>, f: T -> U) {
    && |sent| <= |orders| - |before| <= |sent| + 1
    && (forall k :: 0 <= k < |sent| ==> sent[k] == f(orders[|before| + k]))
  }

  lemma {:induction false} RunCyclesSendsStoredOrders(db: Db, customerId: int, steps: seq<Step>)
    requires |steps| >= 1
    decreases |steps|
    ensures SendsStoredOrders(db.orders, RunCycles(db, customerId, steps))
  {
    var c := CreateOrderOnce(Seen(db, steps[0]), customerId, steps[0].input);
    if c.outcome != Completed || |steps| == 1 {
      LastCycleSendsStoredOrder(db, customerId, steps);
    } else {
      RunCyclesSendsStoredOrders(c.db, customerId, steps[1..]);
      LaterCyclesSendStoredOrders(db, customerId, steps);
    }
  }

  /** The run of a single cycle, or one cut short by its first cycle. */
  lemma LastCycleSendsStoredOrder(db: Db, customerId: int, steps: seq<Step>)
    requires |steps| >= 1
    requires CreateOrderOnce(Seen(db, steps[0]), customerId, steps[0].input).outcome != Completed || |steps| == 1
    ensures SendsStoredOrders(db.orders, RunCycles(db, customerId, steps))
  {
    var c := CreateOrderOnce(Seen(db, steps[0]), customerId, steps[0].input);
    CycleSendsStoredOrder(Seen(db, steps[0]), customerId, steps[0].input);
    var r := RunCycles(db, customerId, steps);
    assert r.db == c.db && r.sent == c.sent;
  }

  /** A completed first cycle followed by a run that keeps the property. */
  lemma LaterCyclesSendStoredOrders(db: Db, customerId: int, steps: seq<Step>)
    requires |steps| > 1
    requires CreateOrderOnce(Seen(db, steps[0]), customerId, steps[0].input).outcome == Completed
    requires var c := CreateOrderOnce(Seen(db, steps[0]), customerId, steps[0].input);
             SendsStoredOrders(c.db.orders, RunCycles(c.db, customerId, steps[1..]))
    ensures SendsStoredOrders(db.orders, RunCycles(db, customerId, steps))
  {
    var c := CreateOrderOnce(Seen(db, steps[0]), customerId, steps[0].input);
    var rest := RunCycles(c.db, customerId, steps[1..]);
    CycleSendsStoredOrder(Seen(db, steps[0]), customerId, steps[0].input);
    RunCyclesAppends(c.db, customerId, steps[1..]);
    PrefixAgrees(rest.db.orders, c.db.orders);
    RunAfterCompletedCycle(db, customerId, steps);
    SentConcat(db.orders, c.db.orders, rest.db.orders, c.sent, rest.sent, PublicationOf);
  }

  /** After a completed first cycle the run continues with the remaining steps. */
  lemma RunAfterCompletedCycle(db: Db, customerId: int, steps: seq<Step>)
    requires |steps| > 1
    requires CreateOrderOnce(Seen(db, steps[0]), customerId, steps[0].input).outcome == Completed
    ensures var c := CreateOrderOnce(Seen(db, steps[0]), customerId, steps[0].input);
            var rest := RunCycles(c.db, customerId, steps[1..]);
            var r := RunCycles(db, customerId, steps);
            r.db == rest.db && r.sent == c.sent + rest.sent && r.cycles == 1 + rest.cycles && r.end == rest.end
  {
  }

  lemma PrefixAgrees<T>(longer: seq<T>, shorter: seq<T>)
    requires |shorter| <= |longer| && longer[..|shorter|] == shorter
    ensures forall k :: 0 <= k < |shorter| ==> longer[k] == shorter[k]
  {
    forall k | 0 <= k < |shorter| ensures longer[k] == shorter[k] {
      assert longer[k] == longer[..|shorter|][k];
    }
  }

  /** Joining the messages of one completed cycle and of the cycles after it keeps each
      message next to its stored order; `f` builds a message from an order. */
  lemma SentConcat<T, U>(o0: seq<T>, o1: seq<T>, o2: seq<T>, s1: seq<U>, s2: seq<U>, f: T -> U)
    requires |o0| + |s1| == |o1| <= |o2|
    requires forall k :: 0 <= k < |o1| ==> o2[k] == o1[k]
    requires SentInOrder(o0, o1, s1, f) && SentInOrder(o1, o2, s2, f)
    ensures SentInOrder(o0, o2, s1 + s2, f)
  {
    forall k | 0 <= k < |s1 + s2| ensures (s1 + s2)[k] == f(o2[|o0| + k]) {
      if k >= |s1| {
        assert (s1 + s2)[k] == s2[k - |s1|];
      }
    }
  }

  /** The server state the jobs act on: the store and the job table. */
  datatype Backend = Backend(db: Db, registry: Registry)

  datatype JobRun = JobRun(backend: Backend, sent: seq<Publication>, cycles: nat, end: RunEnd)

  /** `RunJobAsync`: the first cycle runs before any wait, then one cycle per tick in
      `ticks`. The loop never touches the job table: a job that ends by a fault keeps its
      entry. */
  function RunJobAsync(b: Backend, customerId: int, first: Step, ticks: seq<Step>): (r: JobRun)
    ensures r.backend.registry == b.registry
    ensures 1 <= r.cycles <= 1 + |ticks|
    ensures r.backend.db.nextCustomerId == b.db.nextCustomerId
    ensures r.cycles == 1 ==> r.backend.db.customers == first.customers
    ensures r.cycles > 1 ==> r.backend.db.customers == ticks[r.cycles - 2].customers
    ensures (forall k :: 0 <= k < |ticks| ==> !Hits(customerId, ticks[k])) && !Hits(customerId, first)
            ==> r.cycles == 1 + |ticks| && r.end == EndedByCancellation
  {
    var steps := [first] + ticks;
    var run := RunCycles(b.db, customerId, steps);
    RunCyclesStopsAtFirstFault(b.db, customerId, steps);
    assert steps[0] == first;
    assert run.cycles > 1 ==> steps[run.cycles - 1] == ticks[run.cycles - 2];
    assert (forall k :: 0 <= k < |ticks| ==> !Hits(customerId, ticks[k])) && !Hits(customerId, first) ==>
             !Hits(customerId, steps[run.cycles - 1]);
    JobRun(b.(db := run.db), run.sent, run.cycles, run.end)
  }

  /** For a customer active in every table its cycles read, and a run with no faults, every
      cycle stores one order and sends one message for it, so the run stores and sends one
      per tick plus one. */
  lemma FaultFreeRunOfActiveCustomer(b: Backend, customerId: int, first: Step, ticks: seq<Step>)
    requires IsActive(first.customers, customerId) && forall k :: 0 <= k < |ticks| ==> IsActive(ticks[k].customers, customerId)
    requires first.input.fault == NoFault && forall k :: 0 <= k < |ticks| ==> ticks[k].input.fault == NoFault
    ensures var r := RunJobAsync(b, customerId, first, ticks);
            && |r.backend.db.orders| == |b.db.orders| + 1 + |ticks|
            && |r.sent| == 1 + |ticks|
            && forall p :: p in r.sent ==> p.group == GroupName(customerId)
  {
    var steps := [first] + ticks;
    assert forall k :: 0 <= k < |steps| ==> steps[k] == if k == 0 then first else ticks[k - 1];
    FaultFreeRunCycles(b.db, customerId, steps);
  }

  lemma {:induction false} FaultFreeRunCycles(db: Db, customerId: int, steps: seq<Step>)
    requires |steps| >= 1
    requires forall k :: 0 <= k < |steps| ==> IsActive(steps[k].customers, customerId)
    requires forall k :: 0 <= k < |steps| ==> steps[k].input.fault == NoFault
    ensures var r := RunCycles(db, customerId, steps);
            && |r.db.orders| == |db.orders| + |steps|
            && |r.sent| == |steps|
            && forall p :: p in r.sent ==> p.group == GroupName(customerId)
    decreases |steps|
  {
    var c := CreateOrderOnce(Seen(db, steps[0]), customerId, steps[0].input);
    if |steps| > 1 {
      FaultFreeRunCycles(c.db, customerId, steps[1..]);
    }
  }
}
