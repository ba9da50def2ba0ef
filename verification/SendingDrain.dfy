/**
 Stopping the sending queues: the group counters, what a stop that saw a
 drained queue or group may conclude, and why waiting for it ends.
 */
module SendingDrain {
  import opened Wrappers
  import opened SendingQueue
  import opened SendingRuns

  // ---------------------------------------------------------------- group counters

  /** The work a queue adds to the counter of group g: its items, queued or in hand. */
  function Load(g: string): QueueState -> int {
    (q: QueueState) => if q.group == g then |q.items| + |q.frames| else 0
  }

  ghost function Outstanding(w: World, g: string): int {
    Total(w.queues, Load(g))
  }

  /** Every group counter equals the outstanding work of its queues, and a
      group without a counter has none. */
  ghost predicate CountersExact(w: World) {
    forall g :: Exact(w, g)
  }

  ghost predicate Exact(w: World, g: string) {
    Outstanding(w, g) == if g in w.pending then w.pending[g] else 0
  }

  lemma {:induction false} NoQueueNoLoad(qs: seq<QueueState>, g: string)
    requires forall i :: 0 <= i < |qs| ==> qs[i].group != g
    ensures Total(qs, Load(g)) == 0
  {
    if qs != [] { NoQueueNoLoad(qs[..|qs| - 1], g); }
  }

  /** A processor takes work away from its queue exactly when it ends. */
  lemma EffectLoad(w: World, e: Event, g: string)
    requires IsProcessor(e) && Enabled(w, e) && Exclusive(w.queues[e.q])
    ensures
      var effect := EffectOf(w, e);
      Load(g)(effect.queue) == Load(g)(w.queues[e.q]) - (if effect.ended && w.queues[e.q].group == g then 1 else 0)
  {
  }

  /** A queue of a group without outstanding work has none. */
  lemma NoLoadNoWork(w: World, i: nat, g: string)
    requires i < |w.queues| && w.queues[i].group == g && Outstanding(w, g) == 0
    ensures w.queues[i].items == [] && w.queues[i].frames == []
  {
    TotalBounds(w.queues, Load(g), i);
    assert Load(g)(w.queues[i]) == |w.queues[i].items| + |w.queues[i].frames|;
  }

  lemma ProcessorKeepsCounter(w: World, e: Event, g: string)
    requires IsProcessor(e) && Enabled(w, e) && Sound(w) && CountersExact(w)
    ensures Exact(Step(w, e), g)
  {
    var h := w.queues[e.q].group;
    assert Exact(w, g) && Exact(w, h);
    EffectLoad(w, e, g);
    TotalUpdate(w.queues, Load(g), e.q, EffectOf(w, e).queue);
    if h !in w.pending {
      NoLoadNoWork(w, e.q, h);
    }
  }

  lemma OtherStepsKeepCounter(w: World, e: Event, g: string)
    requires Enabled(w, e) && Sound(w) && CountersExact(w)
    requires !IsProcessor(e) && !e.ReleaseAll? && !e.ReleaseGroup?
    ensures Exact(Step(w, e), g)
  {
    assert Exact(w, g);
    match e
    case NewQueue(h) =>
      TotalAppend(w.queues, Load(g), QueueState(h, [], false, [], 0, false));
    case Schedule(i) =>
      if Issues(w, e) {
        TotalUpdate(w.queues, Load(g), i, Scheduled(w.queues[i], Item(w.next, BlockedAt(w, i).value)));
      }
    case BlockQueue(i) =>
      TotalUpdate(w.queues, Load(g), i, w.queues[i].(instanceBlock := true));
    case BlockGroup(_) =>
    case BlockAll =>
  }

  /** A release finds no work outstanding in what it releases. */
  ghost predicate Idle(w: World, e: Event) {
    && (e.ReleaseGroup? ==> Outstanding(w, e.group) == 0)
    && (e.ReleaseAll? ==> forall g :: Outstanding(w, g) == 0)
  }

  lemma ReleaseKeepsCounters(w: World, e: Event)
    requires CountersExact(w) && (e.ReleaseGroup? || e.ReleaseAll?)
    ensures CountersExact(Step(w, e)) <==> Idle(w, e)
  {
    forall g ensures Outstanding(Step(w, e), g) == Outstanding(w, g) && Exact(w, g) {}
    match e {
      case ReleaseGroup(h) =>
        forall g ensures Exact(Step(w, e), g) <==> (g == h ==> Outstanding(w, h) == 0) {}
        assert CountersExact(Step(w, e)) ==> Exact(Step(w, e), h);
      case ReleaseAll =>
        forall g ensures Exact(Step(w, e), g) <==> Outstanding(w, g) == 0 {}
    }
  }

  /** Exact counters stay exact over every event, except that a release keeps
      them exactly when what it releases has no work outstanding. */
  lemma CountersStayExactIff(w: World, e: Event)
    requires Enabled(w, e) && Sound(w) && CountersExact(w)
    ensures CountersExact(Step(w, e)) <==> Idle(w, e)
  {
    if e.ReleaseGroup? || e.ReleaseAll? {
      ReleaseKeepsCounters(w, e);
    } else {
      forall g ensures Exact(Step(w, e), g) {
        if IsProcessor(e) { ProcessorKeepsCounter(w, e, g); } else { OtherStepsKeepCounter(w, e, g); }
      }
    }
  }

  /** Blocks are released only where no work is outstanding. */
  ghost predicate Settled(es: seq<Event>)
    requires Legal(Init, es)
    decreases |es|
  {
    es == [] || (Settled(es[..|es| - 1]) && Idle(Run(Init, es[..|es| - 1]), es[|es| - 1]))
  }

  lemma {:induction false} CountersAreExact(es: seq<Event>)
    requires Legal(Init, es) && Settled(es)
    ensures CountersExact(Run(Init, es))
    ensures forall g :: g in Run(Init, es).pending ==> Run(Init, es).pending[g] >= 0
    decreases |es|
  {
    if es != [] {
      var before := es[..|es| - 1];
      CountersAreExact(before);
      AtMostOneInHand(before);
      CountersStayExactIff(Run(Init, before), es[|es| - 1]);
    }
    forall g | g in Run(Init, es).pending ensures Run(Init, es).pending[g] >= 0 {
      assert Exact(Run(Init, es), g);
      TotalNonNegative(Run(Init, es).queues, Load(g));
    }
  }

  /** Such releases drop nothing and lose no wake-up. */
  lemma {:induction false} SettledIsLossless(es: seq<Event>)
    requires Legal(Init, es) && Settled(es)
    ensures Lossless(es) && Gentle(es)
    decreases |es|
  {
    if es != [] {
      var before := es[..|es| - 1];
      var w := Run(Init, before);
      SettledIsLossless(before);
      if es[|es| - 1].ReleaseAll? {
        forall q | q in w.queues ensures q.items == [] && q.frames == [] {
          var i :| 0 <= i < |w.queues| && w.queues[i] == q;
          NoLoadNoWork(w, i, q.group);
        }
      }
    }
  }

  // ---------------------------------------------------------------- what a stop has seen

  lemma {:induction false} GivenAreIssued(es: seq<Event>, i: nat, j: nat)
    requires Legal(Init, es)
    ensures forall a :: a in Given(es, i) ==> a.ticket < Run(Init, es).next
    ensures forall a, b :: a in Given(es, i) && b in Given(es, j) && i != j ==> a.ticket != b.ticket
    decreases |es|
  {
    if es != [] {
      GivenAreIssued(es[..|es| - 1], i, j);
      GivenAreIssued(es[..|es| - 1], j, i);
    }
  }

  lemma {:induction false} HolderHasItem(items: seq<Item>, t: Ticket)
    requires TicketsIn(items)[t] > 0
    ensures exists item :: item in items && item.ticket == t
  {
    var n := |items| - 1;
    if items[n].ticket == t {
      assert items[n] in items;
    } else {
      HolderHasItem(items[..n], t);
      var item :| item in items[..n] && item.ticket == t;
      assert item in items;
    }
  }

  lemma {:induction false} TotalPositive(qs: seq<QueueState>, f: QueueState -> int) returns (i: nat)
    requires Total(qs, f) > 0
    ensures i < |qs| && f(qs[i]) > 0
  {
    var n := |qs| - 1;
    if f(qs[n]) > 0 { i := n; } else { i := TotalPositive(qs[..n], f); }
  }

  /** A queue that holds a ticket was given it. */
  lemma HolderWasGiven(es: seq<Event>, i: nat, t: Ticket) returns (item: Item)
    requires Legal(Init, es) && i < |Run(Init, es).queues| && Holds(t)(Run(Init, es).queues[i]) > 0
    ensures item in Given(es, i) && item.ticket == t
  {
    var q := Run(Init, es).queues[i];
    AtMostOneInHand(es);
    OrderIsKept(es, i);
    if TicketsIn(q.items)[t] > 0 {
      HolderHasItem(q.items, t);
      item :| item in q.items && item.ticket == t;
    } else {
      HeldByOne(q.frames);
      assert q.frames[0] in q.frames;
      item := q.frames[0].item;
      assert item in Taken(es, i);
    }
  }

  /** single_stop leaves its loop when the list is empty and the lock is free;
      then every item the queue was ever given has its answer. */
  lemma IdleQueueHasAnswered(es: seq<Event>, i: nat)
    requires Legal(Init, es) && Lossless(es) && i < |Run(Init, es).queues|
    requires Run(Init, es).queues[i].items == [] && !Run(Init, es).queues[i].locked
    ensures forall item :: item in Given(es, i) ==> item.ticket in Run(Init, es).status
  {
    var w := Run(Init, es);
    TicketsAreAccounted(es);
    AtMostOneInHand(es);
    forall item | item in Given(es, i) ensures item.ticket in w.status {
      var t := item.ticket;
      GivenAreIssued(es, i, i);
      if t !in w.status {
        assert Places(w, t) == 1;
        var j := TotalPositive(w.queues, Holds(t));
        var twin := HolderWasGiven(es, j, t);
        GivenAreIssued(es, i, j);
      }
    }
  }

  /** local_stop leaves its loop when the counter of the group is not positive;
      then every item ever given to a queue of the group has its answer. */
  lemma StoppedGroupHasAnswered(es: seq<Event>, g: string)
    requires Legal(Init, es) && Settled(es)
    requires g in Run(Init, es).pending && Run(Init, es).pending[g] <= 0
    ensures forall i, item :: 0 <= i < |Run(Init, es).queues| && Run(Init, es).queues[i].group == g && item in Given(es, i) ==>
              item.ticket in Run(Init, es).status
  {
    var w := Run(Init, es);
    CountersAreExact(es);
    SettledIsLossless(es);
    AtMostOneInHand(es);
    assert Exact(w, g);
    TotalNonNegative(w.queues, Load(g));
    forall i | 0 <= i < |w.queues| && w.queues[i].group == g
      ensures forall item :: item in Given(es, i) ==> item.ticket in w.status
    {
      NoLoadNoWork(w, i, g);
      IdleQueueHasAnswered(es, i);
    }
  }

  /** Without that discipline a stop is fooled: after a release with an item
      queued the counter is 0, and nothing was answered. */
  lemma ReleaseFoolsStop()
    ensures exists es: seq<Event> ::
      Legal(Init, es) && Lossless(es) && Gentle(es)
      && "g" in Run(Init, es).pending && Run(Init, es).pending["g"] <= 0
      && Given(es, 0) != [] && Run(Init, es).status == map[]
  {
    var e1, e2, e3 := [NewQueue("g")], [NewQueue("g"), Schedule(0)], [NewQueue("g"), Schedule(0), ReleaseGroup("g")];
    assert e1[..0] == [] && e2[..1] == e1 && e3[..2] == e2;
    assert Run(Init, e1) == World([QueueState("g", [], false, [], 0, false)], map[GLOBAL := false, "g" := false], map["g" := 0], map[], 0);
    assert Legal(Init, e2) && Lossless(e2) && Gentle(e2) && |Given(e2, 0)| > 0;
    assert Legal(Init, e3) && Lossless(e3) && Gentle(e3) && |Given(e3, 0)| > 0;
  }

  // ---------------------------------------------------------------- draining

  /** An upper bound on the processor steps a queue can still take. */
  function Work(): QueueState -> int {
    (q: QueueState) =>
      (RETRY_CHECKS + 5) * |q.items| + q.ready
      + (if q.frames == [] then 0 else match q.frames[0] { case Sending(_) => 2 case Waiting(_, n) => RETRY_CHECKS - n + 3 })
  }

  lemma CheckedWork(q: QueueState, checks: nat, blocked: Option<bool>, counted: bool)
    requires |q.frames| == 1 && checks < RETRY_CHECKS
    ensures Work()(Checked(q, 0, checks, blocked, counted).queue) < (RETRY_CHECKS + 5) * |q.items| + q.ready + RETRY_CHECKS - checks + 3
  {
    var after := Checked(q, 0, checks, blocked, counted).queue;
    assert after.items == q.items;
    match blocked {
      case None => assert after.frames == [] && after.ready <= q.ready + 1;
      case Some(true) => assert after.frames[0] == Waiting(q.frames[0].item, checks + 1);
      case Some(false) => assert after.frames[0] == Sending(q.frames[0].item);
    }
  }

  lemma StartedWork(q: QueueState, blocked: Option<bool>, counted: bool)
    requires q.ready > 0 && Exclusive(q)
    ensures Work()(Started(q, blocked, counted).queue) < Work()(q)
  {
    if q.items != [] && !q.locked {
      var popped := Popped(q.(ready := q.ready - 1));
      assert popped.frames == [Sending(q.items[0])];
      if q.items[0].blocked { CheckedWork(popped, 0, blocked, counted); }
    }
  }

  lemma FinishedWork(q: QueueState, f: nat, counted: bool)
    requires Exclusive(q) && f < |q.frames|
    ensures Work()(Finished(q, f, counted)) < Work()(q)
  {
    OneFrame(q, f, counted);
  }

  lemma EffectWork(w: World, e: Event)
    requires IsProcessor(e) && Enabled(w, e) && Exclusive(w.queues[e.q])
    ensures Work()(EffectOf(w, e).queue) < Work()(w.queues[e.q])
  {
    var q, blocked, counted := w.queues[e.q], BlockedAt(w, e.q), w.queues[e.q].group in w.pending;
    match e
    case Start(_) =>
      StartedWork(q, blocked, counted);
    case Wake(_, f) =>
      OneFrame(q, f, counted);
      if q.frames[f].checks < RETRY_CHECKS { CheckedWork(q, q.frames[f].checks, blocked, counted); } else { FinishedWork(q, f, counted); }
    case SendEnds(_, f, _) =>
      FinishedWork(q, f, counted);
  }

  predicate AddsWork(e: Event) {
    e.NewQueue? || e.Schedule?
  }

  lemma StepWork(w: World, e: Event)
    requires Enabled(w, e) && Sound(w) && !AddsWork(e)
    ensures Total(Step(w, e).queues, Work()) + (if IsProcessor(e) then 1 else 0) <= Total(w.queues, Work())
  {
    if IsProcessor(e) {
      EffectWork(w, e);
      TotalUpdate(w.queues, Work(), e.q, EffectOf(w, e).queue);
    } else if e.BlockQueue? {
      TotalUpdate(w.queues, Work(), e.q, w.queues[e.q].(instanceBlock := true));
    }
  }

  ghost function ProcessorSteps(es: seq<Event>): nat {
    if es == [] then 0 else ProcessorSteps(es[..|es| - 1]) + (if IsProcessor(es[|es| - 1]) then 1 else 0)
  }

  /** Once nothing new is scheduled, the processors take at most as many steps as
      there is work, whatever the order and whatever is blocked or released. */
  lemma {:induction false} RunsDrain(w: World, es: seq<Event>)
    requires Legal(w, es) && Sound(w)
    requires forall e :: e in es ==> !AddsWork(e)
    ensures Sound(Run(w, es))
    ensures ProcessorSteps(es) + Total(Run(w, es).queues, Work()) <= Total(w.queues, Work())
    decreases |es|
  {
    if es != [] {
      var before, e := es[..|es| - 1], es[|es| - 1];
      RunsDrain(w, before);
      StepKeepsSound(Run(w, before), e);
      assert e in es;
      StepWork(Run(w, before), e);
    }
  }

  predicate AllEmpty(w: World) {
    forall i :: 0 <= i < |w.queues| ==> w.queues[i].items == [] && w.queues[i].frames == []
  }

  lemma QuiescentMeansEmpty(w: World)
    requires Sound(w) && AllAttended(w)
    requires forall e :: IsProcessor(e) ==> !Enabled(w, e)
    ensures AllEmpty(w)
  {
    forall i | 0 <= i < |w.queues| ensures w.queues[i].items == [] && w.queues[i].frames == [] {
      assert !Enabled(w, Start(i)) && !Enabled(w, Wake(i, 0)) && !Enabled(w, SendEnds(i, 0, Raised));
    }
  }

  lemma {:induction false} EmptyHoldsNothing(qs: seq<QueueState>, t: Ticket)
    requires forall i :: 0 <= i < |qs| ==> qs[i].items == [] && qs[i].frames == []
    ensures Total(qs, Holds(t)) == 0
  {
    if qs != [] { EmptyHoldsNothing(qs[..|qs| - 1], t); }
  }

  /** When no processor can take a step any more, all queues are empty and every
      Status that was handed out is set. */
  lemma QuiescentMeansAnswered(es: seq<Event>)
    requires Legal(Init, es) && Gentle(es) && Lossless(es)
    requires forall e :: IsProcessor(e) ==> !Enabled(Run(Init, es), e)
    ensures AllEmpty(Run(Init, es))
    ensures forall t: Ticket :: t in Run(Init, es).status <==> t < Run(Init, es).next
  {
    AtMostOneInHand(es);
    WakeUpsAreKept(es);
    TicketsAreAccounted(es);
    QuiescentMeansEmpty(Run(Init, es));
    forall t: Ticket ensures t in Run(Init, es).status <==> t < Run(Init, es).next {
      EmptyHoldsNothing(Run(Init, es).queues, t);
      assert Places(Run(Init, es), t) == if t < Run(Init, es).next then 1 else 0;
    }
  }
}
