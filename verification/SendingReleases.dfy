/**
 What releasing all blocks does to live queues.  The release forgets the
 counters and blocks of all groups; this module says exactly which loads of a
 queue let some continuation strand an item or drop a ticket.
 */
module SendingReleases {
  import opened Wrappers
  import opened SendingQueue
  import opened SendingRuns

  // ---------------------------------------------------------------- runs that start with an event

  lemma {:induction false} RunFront(w: World, e: Event, es: seq<Event>)
    requires Enabled(w, e) && Legal(Step(w, e), es)
    ensures Legal(w, [e] + es) && Run(w, [e] + es) == Run(Step(w, e), es)
    decreases |es|
  {
    var all := [e] + es;
    if es == [] {
      assert all[..0] == [] && Legal(w, []) && Run(w, []) == w;
    } else {
      RunFront(w, e, es[..|es| - 1]);
      assert all[..|all| - 1] == [e] + es[..|es| - 1];
    }
  }

  /** Another release of all blocks would be a matter of its own load. */
  ghost predicate Continues(w: World, es: seq<Event>) {
    Legal(w, es) && forall e :: e in es ==> !e.ReleaseAll?
  }

  lemma ContinuesFront(w: World, e: Event, es: seq<Event>)
    requires Enabled(w, e) && !e.ReleaseAll? && Continues(Step(w, e), es)
    ensures Continues(w, [e] + es) && Run(w, [e] + es) == Run(Step(w, e), es)
  {
    RunFront(w, e, es);
  }

  lemma ContinuesBefore(w: World, es: seq<Event>)
    requires Continues(w, es) && es != []
    ensures Continues(w, es[..|es| - 1]) && !es[|es| - 1].ReleaseAll?
  {
    assert es[|es| - 1] in es;
  }

  // ---------------------------------------------------------------- stranded items

  /** The run leaves items in a queue that nobody will take. */
  ghost predicate Strands(w: World, i: nat, es: seq<Event>) {
    Continues(w, es) && i < |Run(w, es).queues| && !Awake(Run(w, es).queues[i])
  }

  lemma {:induction false} AttendedIsNotStranded(w: World, i: nat, es: seq<Event>)
    requires Sound(w) && i < |w.queues| && Attended(w, w.queues[i]) && Continues(w, es)
    ensures Sound(Run(w, es)) && i < |Run(w, es).queues| && Attended(Run(w, es), Run(w, es).queues[i])
    decreases |es|
  {
    if es != [] {
      var before, e := es[..|es| - 1], es[|es| - 1];
      ContinuesBefore(w, es);
      AttendedIsNotStranded(w, i, before);
      StepKeepsSound(Run(w, before), e);
      StepKeepsAttended(Run(w, before), e, i);
    }
  }

  /** An uncounted queue with an item in hand and another one waiting. */
  predicate Doomed(w: World, i: nat) {
    && Sound(w) && i < |w.queues| && w.queues[i].group !in w.pending && GLOBAL in w.blocks && w.blocks[GLOBAL]
    && w.queues[i].locked && w.queues[i].items != []
  }

  /** The steps until the item in hand is done and every task was started in vain. */
  function Delay(q: QueueState): int {
    q.ready + if q.frames != [] && q.frames[0].Waiting? then 2 * (RETRY_CHECKS - q.frames[0].checks) + 1 else 0
  }

  /** One event of a doomed queue: a task finds the lock taken, a wait goes on, or the end. */
  function NextOf(w: World, i: nat): Event
    requires Doomed(w, i)
  {
    var q := w.queues[i];
    if q.ready > 0 then Start(i) else if q.frames[0].Waiting? then Wake(i, 0) else SendEnds(i, 0, Raised)
  }

  lemma DoomedStep(w: World, i: nat)
    requires Doomed(w, i)
    ensures var e := NextOf(w, i);
      Enabled(w, e) && i < |Step(w, e).queues|
      && (!Awake(Step(w, e).queues[i]) || (Doomed(Step(w, e), i) && Delay(Step(w, e).queues[i]) < Delay(w.queues[i])))
  {
    var q, e := w.queues[i], NextOf(w, i);
    StepKeepsSound(w, e);
    if q.ready == 0 && q.frames[0].Waiting? && q.frames[0].checks < RETRY_CHECKS {
      assert EffectOf(w, e).queue.frames[0] == Waiting(q.frames[0].item, q.frames[0].checks + 1);
    }
  }

  lemma {:induction false} DoomedIsStranded(w: World, i: nat) returns (es: seq<Event>)
    requires Doomed(w, i)
    ensures Strands(w, i, es)
    decreases Delay(w.queues[i])
  {
    var e := NextOf(w, i);
    DoomedStep(w, i);
    var rest := [];
    if Awake(Step(w, e).queues[i]) {
      rest := DoomedIsStranded(Step(w, e), i);
    }
    ContinuesFront(w, e, rest);
    es := [e] + rest;
  }

  /** Two unanswered items and no counter: after a global block the first one
      is in hand until nothing is left to take the second. */
  lemma BusyIsStranded(w: World, i: nat) returns (es: seq<Event>)
    requires Sound(w) && i < |w.queues| && w.queues[i].group !in w.pending
    requires Awake(w.queues[i]) && Unanswered(w.queues[i]) >= 2
    ensures Strands(w, i, es)
  {
    var blocked := Step(w, BlockAll);
    var q := w.queues[i];
    if q.locked {
      es := DoomedIsStranded(blocked, i);
    } else {
      var started := Step(blocked, Start(i));
      StepKeepsSound(blocked, Start(i));
      assert Popped(q.(ready := q.ready - 1)).frames == [Sending(q.items[0])];
      es := DoomedIsStranded(started, i);
      ContinuesFront(blocked, Start(i), es);
      es := [Start(i)] + es;
    }
    ContinuesFront(w, BlockAll, es);
    es := [BlockAll] + es;
  }

  /** Releasing all blocks can strand items of a queue exactly if the queue has
      two unanswered items (or is stranded already). */
  lemma ReleaseAllStrandsIff(w: World, i: nat)
    requires Sound(w) && i < |w.queues|
    ensures (exists es :: Strands(Step(w, ReleaseAll), i, es)) <==> !Awake(w.queues[i]) || Unanswered(w.queues[i]) >= 2
  {
    var released := Step(w, ReleaseAll);
    if !Awake(w.queues[i]) {
      assert Strands(released, i, []);
    } else if Unanswered(w.queues[i]) >= 2 {
      var es := BusyIsStranded(released, i);
    } else {
      forall es | Continues(released, es) ensures !Strands(released, i, es) {
        AttendedIsNotStranded(released, i, es);
      }
    }
  }

  /** One queue with two items, as two calls of schedule leave it. */
  function TwoItems(): World {
    World([QueueState("g", [Item(0, false), Item(1, false)], false, [], 2, false)],
          map[GLOBAL := false, "g" := false], map["g" := 2], map[], 2)
  }

  lemma TwoItemsReached() returns (es: seq<Event>)
    ensures Legal(Init, es) && Run(Init, es) == TwoItems()
  {
    var e1, e2 := [NewQueue("g")], [NewQueue("g"), Schedule(0)];
    es := [NewQueue("g"), Schedule(0), Schedule(0)];
    assert e1[..0] == [] && e2[..1] == e1 && es[..2] == e2;
    assert [] + [Item(0, false)] == [Item(0, false)];
    assert [Item(0, false)] + [Item(1, false)] == [Item(0, false), Item(1, false)];
    assert map["g" := 0]["g" := 1] == map["g" := 1] && map["g" := 1]["g" := 2] == map["g" := 2];
    assert Run(Init, e1) == World([QueueState("g", [], false, [], 0, false)], map[GLOBAL := false, "g" := false], map["g" := 0], map[], 0);
    assert Run(Init, e2) == World([QueueState("g", [Item(0, false)], false, [], 1, false)], map[GLOBAL := false, "g" := false], map["g" := 1], map[], 1);
  }

  /** It happens: a run reaches a release of all blocks with such a queue. */
  lemma ReleaseAllLosesWakeUp()
    ensures exists es, more :: Legal(Init, es) && Strands(Step(Run(Init, es), ReleaseAll), 0, more)
  {
    var es := TwoItemsReached();
    var more := BusyIsStranded(Step(TwoItems(), ReleaseAll), 0);
  }

  // ---------------------------------------------------------------- dropped tickets

  /** The run ends with the ticket neither queued, nor in hand, nor answered. */
  ghost predicate Drops(w: World, t: Ticket, es: seq<Event>) {
    Continues(w, es) && Places(Run(w, es), t) == 0
  }

  lemma {:induction false} SafeIsNotDropped(w: World, t: Ticket, es: seq<Event>)
    requires Sound(w) && AllSafe(w, t) && Places(w, t) == 1 && t < w.next && Continues(w, es)
    ensures var w' := Run(w, es); Sound(w') && AllSafe(w', t) && Places(w', t) == 1 && t < w'.next
    decreases |es|
  {
    if es != [] {
      var before, e := es[..|es| - 1], es[|es| - 1];
      ContinuesBefore(w, es);
      SafeIsNotDropped(w, t, before);
      var w' := Run(w, before);
      StepKeepsSound(w', e);
      StepKeepsPlaces(w', e, t);
      forall i | 0 <= i < |Step(w', e).queues| ensures Safe(Step(w', e), Step(w', e).queues[i], t) {
        if i < |w'.queues| { StepKeepsSafe(w', e, i, t); }
      }
    }
  }

  /** The blocks of the queue cannot be read, so looking at them raises. */
  predicate Unreadable(w: World, i: nat) {
    && Sound(w) && i < |w.queues| && !w.blocks[GLOBAL]
    && w.queues[i].group !in w.blocks && !w.queues[i].instanceBlock
  }

  /** The event by which a processor is about to look at the block for the ticket. */
  predicate LooksFor(w: World, i: nat, e: Event, t: Ticket)
    requires i < |w.queues|
  {
    var q := w.queues[i];
    || (e == Start(i) && q.ready > 0 && !q.locked && q.items != [] && q.items[0].blocked && q.items[0].ticket == t)
    || (e == Wake(i, 0) && q.frames != [] && q.frames[0].Waiting? && q.frames[0].item.ticket == t && q.frames[0].checks < RETRY_CHECKS)
  }

  lemma LookingEmptiesHand(w: World, i: nat, e: Event, t: Ticket)
    requires Unreadable(w, i) && LooksFor(w, i, e, t)
    ensures Enabled(w, e) && EffectOf(w, e).answer.None? && EffectOf(w, e).queue.frames == []
    ensures EffectOf(w, e).queue.items == if e.Start? then w.queues[i].items[1..] else w.queues[i].items
  {
    if e.Wake? { OneFrame(w.queues[i], 0, false); }
  }

  /** A queue that loses the ticket at the front, or in hand, holds it once less. */
  lemma HoldsLess(q: QueueState, q': QueueState, t: Ticket)
    requires |q.frames| <= 1 && q'.frames == []
    requires if q.frames == [] then q.items != [] && q.items[0].ticket == t && q'.items == q.items[1..]
             else q.frames[0].item.ticket == t && q'.items == q.items
    ensures Holds(t)(q) == Holds(t)(q') + 1
  {
    HeldByOne(q.frames);
    HeldByOne(q'.frames);
    if q.frames == [] { TicketsPop(q.items); }
  }

  lemma LookingLoses(w: World, i: nat, e: Event, t: Ticket)
    requires Unreadable(w, i) && LooksFor(w, i, e, t) && Places(w, t) == 1
    ensures Enabled(w, e) && Lost(w.queues[i], EffectOf(w, e), t) == 1
  {
    LookingEmptiesHand(w, i, e, t);
    HoldsLess(w.queues[i], EffectOf(w, e).queue, t);
    HeldAtMostOnce(w, i, t);
  }

  lemma HeldAtMostOnce(w: World, i: nat, t: Ticket)
    requires i < |w.queues| && Places(w, t) <= 1
    ensures Holds(t)(w.queues[i]) <= 1
  {
    TotalBounds(w.queues, Holds(t), i);
  }

  lemma LookingDrops(w: World, i: nat, e: Event, t: Ticket)
    requires Unreadable(w, i) && LooksFor(w, i, e, t) && Places(w, t) == 1
    ensures Drops(w, t, [e])
  {
    LookingEmptiesHand(w, i, e, t);
    LookingLoses(w, i, e, t);
    ApplyKeepsPlaces(w, i, EffectOf(w, e), t);
    ContinuesFront(w, e, []);
    assert [e] + [] == [e];
  }

  /** The next event on the way to an item further back. */
  lemma OneStepCloser(w: World, i: nat, k: nat, t: Ticket) returns (e: Event)
    requires Unreadable(w, i) && Places(w, t) == 1
    requires k < |w.queues[i].items| && w.queues[i].items[k].blocked && w.queues[i].items[k].ticket == t
    requires w.queues[i].locked || 0 < k
    requires k < w.queues[i].ready
    ensures Enabled(w, e) && !e.ReleaseAll? && Unreadable(Step(w, e), i)
    ensures var q, q' := w.queues[i], Step(w, e).queues[i];
      if q.locked then q'.items == q.items && q'.ready == q.ready && (!q'.locked || (q.frames[0].Waiting? && q'.locked && q'.frames[0].Sending?))
      else q'.items == q.items[1..] && q'.ready == q.ready - 1
  {
    var q := w.queues[i];
    if q.locked {
      e := if q.frames[0].Waiting? then Wake(i, 0) else SendEnds(i, 0, Raised);
      OneFrame(q, 0, false);
    } else {
      e := Start(i);
      assert Popped(q.(ready := q.ready - 1)).frames == [Sending(q.items[0])];
    }
    StepKeepsSound(w, e);
  }

  lemma StillThere(w: World, e: Event, i: nat, k: nat, t: Ticket)
    requires Sound(w) && Enabled(w, e) && Places(w, t) == 1 && t < w.next
    requires i < |Step(w, e).queues| && k < |Step(w, e).queues[i].items| && Step(w, e).queues[i].items[k].ticket == t
    ensures Places(Step(w, e), t) == 1
  {
    var w' := Step(w, e);
    StepKeepsPlaces(w, e, t);
    TicketsPresent(w'.queues[i].items, k);
    TotalBounds(w'.queues, Holds(t), i);
  }

  lemma {:induction false} ExposedItemIsDropped(w: World, i: nat, k: nat, t: Ticket) returns (es: seq<Event>)
    requires Unreadable(w, i) && Places(w, t) == 1 && t < w.next
    requires k < |w.queues[i].items| && w.queues[i].items[k].blocked && w.queues[i].items[k].ticket == t
    requires k < w.queues[i].ready
    ensures Drops(w, t, es)
    decreases k, if !w.queues[i].locked then 0 else if w.queues[i].frames[0].Sending? then 1 else 2
  {
    if !w.queues[i].locked && k == 0 {
      es := [Start(i)];
      LookingDrops(w, i, Start(i), t);
    } else {
      var e := OneStepCloser(w, i, k, t);
      var next := if w.queues[i].locked then k else k - 1;
      StillThere(w, e, i, next, t);
      es := ExposedItemIsDropped(Step(w, e), i, next, t);
      ContinuesFront(w, e, es);
      es := [e] + es;
    }
  }

  lemma DroppableIsDropped(w: World, i: nat, t: Ticket) returns (es: seq<Event>)
    requires Unreadable(w, i) && Exposed(w.queues[i], t) && Places(w, t) == 1 && t < w.next
    ensures Drops(w, t, es)
  {
    var q := w.queues[i];
    if exists f :: 0 <= f < |q.frames| && q.frames[f].Waiting? && q.frames[f].checks < RETRY_CHECKS && q.frames[f].item.ticket == t {
      es := [Wake(i, 0)];
      LookingDrops(w, i, Wake(i, 0), t);
    } else {
      var k: nat :| k < |q.items| && k < q.ready && q.items[k].blocked && q.items[k].ticket == t;
      es := ExposedItemIsDropped(w, i, k, t);
    }
  }

  /** Releasing all blocks can drop a ticket exactly if its queue is not blocked
      for itself, and either its processor is waiting for a release, or its item
      was scheduled under a block and tasks are left that could pop it. */
  lemma ReleaseAllDropsIff(w: World, t: Ticket)
    requires Sound(w) && Places(w, t) == 1 && t < w.next
    ensures (exists es :: Drops(Step(w, ReleaseAll), t, es)) <==> exists i :: 0 <= i < |w.queues| && Droppable(w.queues[i], t)
  {
    var released := Step(w, ReleaseAll);
    StepKeepsSound(w, ReleaseAll);
    if exists i :: 0 <= i < |w.queues| && Droppable(w.queues[i], t) {
      var i: nat :| i < |w.queues| && Droppable(w.queues[i], t);
      var es := DroppableIsDropped(released, i, t);
    } else {
      forall es | Continues(released, es) ensures !Drops(released, t, es) {
        SafeIsNotDropped(released, t, es);
      }
    }
  }
}
