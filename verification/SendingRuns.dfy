/**
 Every interleaving of the sending queues: the event loop as a state machine
 over any number of queues, and what holds after any run of it.
 */
module SendingRuns {
  import opened Wrappers
  import opened SendingQueue

  /** All queues created so far, the shared dictionaries, and the answered Status objects. */
  datatype World = World(
    queues: seq<QueueState>,
    blocks: map<string, bool>,
    pending: map<string, int>,
    status: map<Ticket, bool>,
    next: Ticket)

  datatype Event =
    | NewQueue(group: string)
    | Schedule(q: nat)
    | Start(q: nat)
    | Wake(q: nat, f: nat)
    | SendEnds(q: nat, f: nat, outcome: Outcome)
    | BlockQueue(q: nat)
    | BlockGroup(group: string)
    | BlockAll
    | ReleaseGroup(group: string)
    | ReleaseAll

  const Init := World([], map[GLOBAL := false], map[], map[], 0)

  predicate Enabled(w: World, e: Event) {
    match e
    case Schedule(q) => q < |w.queues|
    case BlockQueue(q) => q < |w.queues|
    case Start(q) => q < |w.queues| && w.queues[q].ready > 0
    case Wake(q, f) => q < |w.queues| && f < |w.queues[q].frames| && w.queues[q].frames[f].Waiting?
    case SendEnds(q, f, _) => q < |w.queues| && f < |w.queues[q].frames| && w.queues[q].frames[f].Sending?
    case _ => true
  }

  predicate IsProcessor(e: Event) {
    e.Start? || e.Wake? || e.SendEnds?
  }

  function BlockedAt(w: World, q: nat): Option<bool>
    requires q < |w.queues|
  {
    Blocked(w.queues[q], w.blocks)
  }

  function EffectOf(w: World, e: Event): Effect
    requires IsProcessor(e) && Enabled(w, e)
  {
    var q := w.queues[e.q];
    var counted := q.group in w.pending;
    match e
    case Start(_) => Started(q, BlockedAt(w, e.q), counted)
    case Wake(_, f) => Woken(q, f, BlockedAt(w, e.q), counted)
    case SendEnds(_, f, outcome) => Sent(q, f, outcome, counted)
  }

  function Answered(status: map<Ticket, bool>, answer: Option<(Ticket, bool)>): map<Ticket, bool> {
    match answer
    case None => status
    case Some((ticket, ok)) => status[ticket := ok]
  }

  function Step(w: World, e: Event): World
    requires Enabled(w, e)
  {
    match e
    case NewQueue(g) =>
      w.(queues := w.queues + [QueueState(g, [], false, [], 0, false)],
         blocks := if g in w.blocks then w.blocks else w.blocks[g := false],
         pending := if g in w.pending then w.pending else w.pending[g := 0])
    case Schedule(i) =>
      var q := w.queues[i];
      if q.group !in w.pending || BlockedAt(w, i).None? then w
      else
        w.(queues := w.queues[i := Scheduled(q, Item(w.next, BlockedAt(w, i).value))],
           pending := w.pending[q.group := w.pending[q.group] + 1],
           next := w.next + 1)
    case BlockQueue(i) => w.(queues := w.queues[i := w.queues[i].(instanceBlock := true)])
    case BlockGroup(g) => w.(blocks := w.blocks[g := true])
    case BlockAll => w.(blocks := w.blocks[GLOBAL := true])
    case ReleaseGroup(g) => w.(blocks := w.blocks[g := false], pending := w.pending[g := 0])
    case ReleaseAll => w.(blocks := map[GLOBAL := false], pending := map[])
    case _ => Apply(w, e.q, EffectOf(w, e))
  }

  function Apply(w: World, i: nat, effect: Effect): World
    requires i < |w.queues|
  {
    w.(queues := w.queues[i := effect.queue],
       pending := if effect.ended then Discount(w.pending, w.queues[i].group) else w.pending,
       status := Answered(w.status, effect.answer))
  }

  /** Every event of the run can happen when it does. */
  ghost predicate Legal(w: World, es: seq<Event>)
    decreases |es|, 0
  {
    es == [] || (Legal(w, es[..|es| - 1]) && Enabled(Run(w, es[..|es| - 1]), es[|es| - 1]))
  }

  ghost function Run(w: World, es: seq<Event>): World
    requires Legal(w, es)
    decreases |es|, 1
  {
    if es == [] then w else Step(Run(w, es[..|es| - 1]), es[|es| - 1])
  }

  // ---------------------------------------------------------------- sums over queues

  ghost function Total(qs: seq<QueueState>, f: QueueState -> int): int {
    if qs == [] then 0 else Total(qs[..|qs| - 1], f) + f(qs[|qs| - 1])
  }

  lemma {:induction false} TotalUpdate(qs: seq<QueueState>, f: QueueState -> int, i: nat, q: QueueState)
    requires i < |qs|
    ensures Total(qs[i := q], f) == Total(qs, f) - f(qs[i]) + f(q)
  {
    var n := |qs| - 1;
    if i < n {
      assert qs[i := q][..n] == qs[..n][i := q];
      TotalUpdate(qs[..n], f, i, q);
    } else {
      assert qs[i := q][..n] == qs[..n];
    }
  }

  lemma {:induction false} TotalAppend(qs: seq<QueueState>, f: QueueState -> int, q: QueueState)
    ensures Total(qs + [q], f) == Total(qs, f) + f(q)
  {
    assert (qs + [q])[..|qs|] == qs;
  }

  lemma {:induction false} TotalBounds(qs: seq<QueueState>, f: QueueState -> int, i: nat)
    requires i < |qs|
    requires forall q :: f(q) >= 0
    ensures 0 <= f(qs[i]) <= Total(qs, f)
    ensures forall j :: 0 <= j < |qs| && j != i ==> f(qs[i]) + f(qs[j]) <= Total(qs, f)
  {
    var n := |qs| - 1;
    TotalNonNegative(qs[..n], f);
    if i < n {
      TotalBounds(qs[..n], f, i);
      assert qs[..n][i] == qs[i];
      forall j | 0 <= j < |qs| && j != i ensures f(qs[i]) + f(qs[j]) <= Total(qs, f) {
        if j < n { assert qs[..n][j] == qs[j]; }
      }
    } else {
      forall j | 0 <= j < n ensures f(qs[j]) <= Total(qs[..n], f) {
        TotalBounds(qs[..n], f, j);
        assert qs[..n][j] == qs[j];
      }
    }
  }

  lemma {:induction false} TotalNonNegative(qs: seq<QueueState>, f: QueueState -> int)
    requires forall q :: f(q) >= 0
    ensures Total(qs, f) >= 0
  {
    if qs != [] { TotalNonNegative(qs[..|qs| - 1], f); }
  }

  // ---------------------------------------------------------------- mutual exclusion and wake-ups

  /** One processor holds the lock, or none exists. */
  predicate Exclusive(q: QueueState) {
    && |q.frames| == (if q.locked then 1 else 0)
    && forall f :: 0 <= f < |q.frames| && q.frames[f].Waiting? ==>
         q.frames[f].item.blocked && 1 <= q.frames[f].checks <= RETRY_CHECKS
  }

  /** A queue with items has a processor at work or one about to start. */
  predicate Awake(q: QueueState) {
    q.items != [] ==> q.locked || q.ready > 0
  }

  predicate Sound(w: World) {
    && GLOBAL in w.blocks
    && w.pending.Keys <= w.blocks.Keys
    && forall i :: 0 <= i < |w.queues| ==> Exclusive(w.queues[i])
  }

  lemma EffectKeepsExclusive(w: World, e: Event)
    requires IsProcessor(e) && Enabled(w, e) && Exclusive(w.queues[e.q])
    ensures Exclusive(EffectOf(w, e).queue)
    ensures EffectOf(w, e).queue.group == w.queues[e.q].group
  {
  }

  lemma StepKeepsSound(w: World, e: Event)
    requires Enabled(w, e) && Sound(w)
    ensures Sound(Step(w, e))
  {
    if IsProcessor(e) {
      EffectKeepsExclusive(w, e);
    }
  }

  /** In every run, with any blocks and releases, at most one item of a queue is in hand. */
  lemma {:induction false} AtMostOneInHand(es: seq<Event>)
    requires Legal(Init, es)
    ensures Sound(Run(Init, es))
    decreases |es|
  {
    if es != [] {
      AtMostOneInHand(es[..|es| - 1]);
      StepKeepsSound(Run(Init, es[..|es| - 1]), es[|es| - 1]);
    }
  }

  /** The items of a queue that have no answer yet, queued or in hand. */
  function Unanswered(q: QueueState): nat {
    |q.items| + |q.frames|
  }

  /** A queue that will be served: it is awake, and its processors are counted
      and so create successors, unless one processor is all it needs. */
  predicate Attended(w: World, q: QueueState) {
    Awake(q) && (q.group in w.pending || Unanswered(q) <= 1)
  }

  predicate AllAttended(w: World) {
    forall i :: 0 <= i < |w.queues| ==> Attended(w, w.queues[i])
  }

  lemma EffectKeepsAttended(w: World, e: Event)
    requires IsProcessor(e) && Enabled(w, e) && Exclusive(w.queues[e.q]) && w.pending.Keys <= w.blocks.Keys
    requires Attended(w, w.queues[e.q])
    ensures Attended(w, EffectOf(w, e).queue)
  {
    EffectKeepsExclusive(w, e);
  }

  lemma StepKeepsAttended(w: World, e: Event, i: nat)
    requires Enabled(w, e) && Sound(w) && i < |w.queues| && Attended(w, w.queues[i])
    requires e.ReleaseAll? ==> Unanswered(w.queues[i]) <= 1
    ensures i < |Step(w, e).queues| && Attended(Step(w, e), Step(w, e).queues[i])
  {
    if IsProcessor(e) && e.q == i {
      EffectKeepsAttended(w, e);
    }
  }

  /** The counters of all groups are dropped only when no queue has more than one item left. */
  ghost predicate Gentle(es: seq<Event>)
    requires Legal(Init, es)
    decreases |es|
  {
    es == [] || (Gentle(es[..|es| - 1]) && (es[|es| - 1].ReleaseAll? ==>
      forall q :: q in Run(Init, es[..|es| - 1]).queues ==> Unanswered(q) <= 1))
  }

  /** No wake-up is lost in any run that drops all counters gently. */
  lemma {:induction false} WakeUpsAreKept(es: seq<Event>)
    requires Legal(Init, es) && Gentle(es)
    ensures AllAttended(Run(Init, es))
    decreases |es|
  {
    if es != [] {
      var before := es[..|es| - 1];
      var w, e := Run(Init, before), es[|es| - 1];
      WakeUpsAreKept(before);
      AtMostOneInHand(before);
      forall i | 0 <= i < |Step(w, e).queues| ensures Attended(Step(w, e), Step(w, e).queues[i]) {
        if i < |w.queues| { StepKeepsAttended(w, e, i); }
      }
    }
  }

  // ---------------------------------------------------------------- conservation of tickets

  function TicketsIn(items: seq<Item>): multiset<Ticket> {
    if items == [] then multiset{} else TicketsIn(items[..|items| - 1]) + multiset{items[|items| - 1].ticket}
  }

  function TicketsHeld(frames: seq<Frame>): multiset<Ticket> {
    if frames == [] then multiset{} else TicketsHeld(frames[..|frames| - 1]) + multiset{frames[|frames| - 1].item.ticket}
  }

  function Holds(t: Ticket): QueueState -> int {
    (q: QueueState) => TicketsIn(q.items)[t] + TicketsHeld(q.frames)[t]
  }

  /** In how many places a ticket is: queued, in hand, or answered. */
  ghost function Places(w: World, t: Ticket): int {
    Total(w.queues, Holds(t)) + (if t in w.status then 1 else 0)
  }

  lemma {:induction false} TicketsPop(items: seq<Item>)
    requires items != []
    ensures TicketsIn(items) == multiset{items[0].ticket} + TicketsIn(items[1..])
  {
    var n := |items| - 1;
    if n > 0 {
      TicketsPop(items[..n]);
      assert items[..n][1..] == items[1..][..n - 1];
    }
  }

  lemma {:induction false} TicketsPresent(items: seq<Item>, k: nat)
    requires k < |items|
    ensures TicketsIn(items)[items[k].ticket] >= 1
  {
    var n := |items| - 1;
    if k < n {
      TicketsPresent(items[..n], k);
      assert items[..n][k] == items[k];
    }
  }

  lemma HeldByOne(frames: seq<Frame>)
    requires |frames| <= 1
    ensures frames == [] ==> TicketsHeld(frames) == multiset{}
    ensures frames != [] ==> TicketsHeld(frames) == multiset{frames[0].item.ticket}
  {
  }

  /** The one suspended processor of a queue, and the queue once it has ended. */
  lemma OneFrame(q: QueueState, f: nat, counted: bool)
    requires Exclusive(q) && f < |q.frames|
    ensures f == 0 && q.frames == [q.frames[0]] && Finished(q, f, counted).frames == []
  {
  }

  /** The ticket waits for a release, or tasks are left to pop its item, which
      was scheduled under a block: its processor is going to look at the block. */
  predicate Exposed(q: QueueState, t: Ticket) {
    || (exists f :: 0 <= f < |q.frames| && q.frames[f].Waiting? && q.frames[f].checks < RETRY_CHECKS && q.frames[f].item.ticket == t)
    || (exists k :: 0 <= k < |q.items| && k < q.ready && q.items[k].blocked && q.items[k].ticket == t)
  }

  /** Without the block of its group, looking at the block can raise and drop the ticket. */
  predicate Droppable(q: QueueState, t: Ticket) {
    q.group != GLOBAL && !q.instanceBlock && Exposed(q, t)
  }

  /** The ticket is not dropped as long as the blocks are not cleared. */
  predicate Safe(w: World, q: QueueState, t: Ticket) {
    q.group in w.blocks || !Droppable(q, t)
  }

  /** The tickets that one step of a processor takes away from its queue without
      answering them: none, unless reading the block raises. */
  ghost function Lost(q: QueueState, effect: Effect, t: Ticket): int {
    Holds(t)(q) - Holds(t)(effect.queue) - (if effect.answer.Some? && effect.answer.value.0 == t then 1 else 0)
  }

  lemma CheckedMovesTickets(q: QueueState, f: nat, checks: nat, blocked: Option<bool>, counted: bool, t: Ticket)
    requires |q.frames| == 1 && f == 0
    ensures 0 <= Lost(q, Checked(q, f, checks, blocked, counted), t)
    ensures blocked.Some? || q.frames[0].item.ticket != t ==> Lost(q, Checked(q, f, checks, blocked, counted), t) == 0
  {
    var after := Checked(q, f, checks, blocked, counted).queue;
    assert after.frames == match blocked {
      case None => []
      case Some(true) => [Waiting(q.frames[0].item, checks + 1)]
      case Some(false) => [Sending(q.frames[0].item)] };
    HeldByOne(q.frames);
    HeldByOne(after.frames);
  }

  lemma PoppedKeepsTickets(q: QueueState, t: Ticket)
    requires q.items != [] && q.frames == []
    ensures Popped(q).frames == [Sending(q.items[0])]
    ensures Holds(t)(Popped(q)) == Holds(t)(q)
  {
    TicketsPop(q.items);
    HeldByOne(q.frames);
    HeldByOne(Popped(q).frames);
  }

  lemma PopMovesTickets(q: QueueState, blocked: Option<bool>, counted: bool, t: Ticket)
    requires q.items != [] && q.frames == [] && q.items[0].blocked
    ensures 0 <= Lost(q, Checked(Popped(q), 0, 0, blocked, counted), t)
    ensures blocked.Some? || q.items[0].ticket != t ==> Lost(q, Checked(Popped(q), 0, 0, blocked, counted), t) == 0
  {
    PoppedKeepsTickets(q, t);
    CheckedMovesTickets(Popped(q), 0, 0, blocked, counted, t);
  }

  /** A task that finds the lock free pops the first item and, if it was
      scheduled under a block, looks at the block. */
  lemma StartedPops(q: QueueState, blocked: Option<bool>, counted: bool)
    requires q.ready > 0 && Exclusive(q) && q.items != [] && !q.locked
    ensures q.frames == []
    ensures var popped := Popped(q.(ready := q.ready - 1));
      Started(q, blocked, counted) == if q.items[0].blocked then Checked(popped, 0, 0, blocked, counted) else Effect(popped, false, None)
  {
  }

  /** Tasks hold no tickets. */
  lemma TasksDoNotCount(q: QueueState, ready: nat, effect: Effect, t: Ticket)
    ensures Lost(q, effect, t) == Lost(q.(ready := ready), effect, t)
  {
  }

  lemma FrontIsExposed(q: QueueState, t: Ticket)
    requires q.items != [] && q.items[0].blocked && q.items[0].ticket == t && q.ready > 0
    ensures Exposed(q, t)
  {
  }

  lemma StartedMovesTickets(q: QueueState, blocked: Option<bool>, counted: bool, t: Ticket)
    requires q.ready > 0 && Exclusive(q)
    ensures 0 <= Lost(q, Started(q, blocked, counted), t)
    ensures blocked.Some? || !Exposed(q, t) ==> Lost(q, Started(q, blocked, counted), t) == 0
  {
    var fewer := q.(ready := q.ready - 1);
    TasksDoNotCount(q, q.ready - 1, Started(q, blocked, counted), t);
    if q.items != [] && !q.locked {
      StartedPops(q, blocked, counted);
      if q.items[0].blocked {
        PopMovesTickets(fewer, blocked, counted, t);
        if q.items[0].ticket == t { FrontIsExposed(q, t); }
      } else {
        PoppedKeepsTickets(fewer, t);
      }
    }
  }

  lemma FinishedMovesTickets(q: QueueState, f: nat, counted: bool, ok: bool, t: Ticket)
    requires Exclusive(q) && f < |q.frames|
    ensures Lost(q, Effect(Finished(q, f, counted), true, Some((q.frames[f].item.ticket, ok))), t) == 0
  {
    OneFrame(q, f, counted);
    HeldByOne(q.frames);
  }

  lemma WokenMovesTickets(q: QueueState, f: nat, blocked: Option<bool>, counted: bool, t: Ticket)
    requires Exclusive(q) && f < |q.frames| && q.frames[f].Waiting?
    ensures 0 <= Lost(q, Woken(q, f, blocked, counted), t)
    ensures blocked.Some? || !Exposed(q, t) ==> Lost(q, Woken(q, f, blocked, counted), t) == 0
  {
    OneFrame(q, f, counted);
    if q.frames[f].checks < RETRY_CHECKS {
      CheckedMovesTickets(q, f, q.frames[f].checks, blocked, counted, t);
      assert q.frames[f].item.ticket == t ==> Exposed(q, t);
    } else {
      FinishedMovesTickets(q, f, counted, false, t);
    }
  }

  /** A processor step moves its ticket from the queue to its hand, keeps it, or
      answers it; if looking at the block raises, it drops it unanswered. */
  lemma EffectMovesTickets(w: World, e: Event, t: Ticket)
    requires IsProcessor(e) && Enabled(w, e) && Exclusive(w.queues[e.q]) && GLOBAL in w.blocks
    ensures 0 <= Lost(w.queues[e.q], EffectOf(w, e), t)
    ensures Safe(w, w.queues[e.q], t) ==> Lost(w.queues[e.q], EffectOf(w, e), t) == 0
  {
    var q, blocked, counted := w.queues[e.q], BlockedAt(w, e.q), w.queues[e.q].group in w.pending;
    assert blocked.None? && Safe(w, q, t) ==> !Exposed(q, t);
    match e
    case Start(_) =>
      StartedMovesTickets(q, blocked, counted, t);
    case Wake(_, f) =>
      WokenMovesTickets(q, f, blocked, counted, t);
    case SendEnds(_, f, outcome) =>
      FinishedMovesTickets(q, f, counted, Success(outcome), t);
  }

  /** Whether this event hands out a new ticket. */
  predicate Issues(w: World, e: Event)
    requires Enabled(w, e)
  {
    e.Schedule? && w.queues[e.q].group in w.pending && BlockedAt(w, e.q).Some?
  }

  predicate AllSafe(w: World, t: Ticket) {
    forall i :: 0 <= i < |w.queues| ==> Safe(w, w.queues[i], t)
  }

  lemma ApplyKeepsPlaces(w: World, i: nat, effect: Effect, t: Ticket)
    requires i < |w.queues| && Places(w, t) <= 1
    requires 0 <= Lost(w.queues[i], effect, t)
    requires effect.answer.Some? && effect.answer.value.0 == t ==> t !in w.status
    ensures Places(Apply(w, i, effect), t) == Places(w, t) - Lost(w.queues[i], effect, t)
  {
    TotalUpdate(w.queues, Holds(t), i, effect.queue);
  }

  lemma AnswerIsInHand(w: World, e: Event)
    requires IsProcessor(e) && Enabled(w, e) && EffectOf(w, e).answer.Some?
    ensures !e.Start? && EffectOf(w, e).answer.value.0 == w.queues[e.q].frames[e.f].item.ticket
  {
  }

  lemma ProcessorKeepsPlaces(w: World, e: Event, t: Ticket)
    requires IsProcessor(e) && Enabled(w, e) && Sound(w) && Places(w, t) <= 1
    ensures Places(Step(w, e), t) <= Places(w, t) && (Safe(w, w.queues[e.q], t) ==> Places(Step(w, e), t) == Places(w, t))
  {
    var effect := EffectOf(w, e);
    EffectMovesTickets(w, e, t);
    if effect.answer.Some? && effect.answer.value.0 == t {
      AnswerIsInHand(w, e);
      HandIsCounted(w, e.q, e.f, t);
    }
    ApplyKeepsPlaces(w, e.q, effect, t);
  }

  lemma ScheduleKeepsPlaces(w: World, e: Event, t: Ticket)
    requires Enabled(w, e) && e.Schedule?
    ensures Places(Step(w, e), t) == Places(w, t) + (if Issues(w, e) && t == w.next then 1 else 0)
  {
    if Issues(w, e) {
      var q := w.queues[e.q];
      var item := Item(w.next, BlockedAt(w, e.q).value);
      assert (q.items + [item])[..|q.items|] == q.items;
      TotalUpdate(w.queues, Holds(t), e.q, Scheduled(q, item));
    }
  }

  lemma StepKeepsPlaces(w: World, e: Event, t: Ticket)
    requires Enabled(w, e) && Sound(w)
    requires Places(w, t) <= 1
    ensures
      var before := Places(w, t) + (if Issues(w, e) && t == w.next then 1 else 0);
      Places(Step(w, e), t) <= before && (AllSafe(w, t) ==> Places(Step(w, e), t) == before)
  {
    match e
    case NewQueue(g) =>
      TotalAppend(w.queues, Holds(t), QueueState(g, [], false, [], 0, false));
    case Schedule(i) =>
      ScheduleKeepsPlaces(w, e, t);
    case BlockQueue(i) =>
      TotalUpdate(w.queues, Holds(t), i, w.queues[i].(instanceBlock := true));
    case BlockGroup(_) =>
    case BlockAll =>
    case ReleaseGroup(_) =>
    case ReleaseAll =>
    case _ =>
      ProcessorKeepsPlaces(w, e, t);
  }

  lemma HandIsCounted(w: World, i: nat, f: nat, t: Ticket)
    requires i < |w.queues| && f < |w.queues[i].frames| && Exclusive(w.queues[i])
    requires w.queues[i].frames[f].item.ticket == t
    ensures Total(w.queues, Holds(t)) >= 1
  {
    HeldByOne(w.queues[i].frames);
    TotalBounds(w.queues, Holds(t), i);
  }

  /** Without a counted group no processor creates a successor, so a processor
      only uses up the tasks that expose later items. */
  lemma EffectKeepsSafe(w: World, e: Event, t: Ticket)
    requires IsProcessor(e) && Enabled(w, e) && Exclusive(w.queues[e.q])
    requires GLOBAL in w.blocks && w.pending.Keys <= w.blocks.Keys && Safe(w, w.queues[e.q], t)
    ensures Safe(w, EffectOf(w, e).queue, t)
  {
    var q, q' := w.queues[e.q], EffectOf(w, e).queue;
    EffectKeepsExclusive(w, e);
    if q.group !in w.blocks && q.group != GLOBAL && !q.instanceBlock {
      EffectFrames(w, e);
      if e.Start? && Pops(q, e) {
        assert q.items[0].blocked && q.items[0].ticket == t ==> Exposed(q, t);
        assert forall k :: 0 <= k < |q'.items| ==> q'.items[k] == q.items[k + 1];
      }
    }
  }

  lemma StepKeepsSafe(w: World, e: Event, i: nat, t: Ticket)
    requires Enabled(w, e) && Sound(w) && i < |w.queues| && Safe(w, w.queues[i], t)
    requires e.ReleaseAll? ==> !Droppable(w.queues[i], t)
    ensures i < |Step(w, e).queues| && Safe(Step(w, e), Step(w, e).queues[i], t)
  {
    if IsProcessor(e) && e.q == i {
      EffectKeepsSafe(w, e, t);
    }
  }

  /** The blocks of all groups are cleared only when that can drop no ticket. */
  ghost predicate Lossless(es: seq<Event>)
    requires Legal(Init, es)
    decreases |es|
  {
    es == [] || (Lossless(es[..|es| - 1]) && (es[|es| - 1].ReleaseAll? ==>
      forall q, t: Ticket :: q in Run(Init, es[..|es| - 1]).queues ==> !Droppable(q, t)))
  }

  lemma {:induction false} TicketsAreSafe(es: seq<Event>, t: Ticket)
    requires Legal(Init, es) && Lossless(es)
    ensures AllSafe(Run(Init, es), t)
    decreases |es|
  {
    if es != [] {
      var before := es[..|es| - 1];
      var w, e := Run(Init, before), es[|es| - 1];
      TicketsAreSafe(before, t);
      AtMostOneInHand(before);
      forall i | 0 <= i < |Step(w, e).queues| ensures Safe(Step(w, e), Step(w, e).queues[i], t) {
        if i < |w.queues| { StepKeepsSafe(w, e, i, t); }
      }
    }
  }

  /** Tickets below the next one are in at most one place, in exactly one after
      a lossless run, and no other ticket is anywhere. */
  ghost predicate Accounted(w: World, exact: bool) {
    forall t: Ticket ::
      && Places(w, t) <= (if t < w.next then 1 else 0)
      && (exact && t < w.next ==> Places(w, t) == 1)
  }

  lemma {:induction false} TicketsAreAccounted(es: seq<Event>)
    requires Legal(Init, es)
    ensures Accounted(Run(Init, es), Lossless(es))
    decreases |es|
  {
    if es == [] {
      assert forall t: Ticket :: Places(Init, t) == 0;
    } else {
      var before := es[..|es| - 1];
      var w, e := Run(Init, before), es[|es| - 1];
      TicketsAreAccounted(before);
      AtMostOneInHand(before);
      forall t: Ticket
        ensures Places(Step(w, e), t) <= (if t < Step(w, e).next then 1 else 0)
        ensures Lossless(es) && t < Step(w, e).next ==> Places(Step(w, e), t) == 1
      {
        TotalNonNegative(w.queues, Holds(t));
        if Lossless(es) { TicketsAreSafe(before, t); }
        StepKeepsPlaces(w, e, t);
      }
    }
  }

  /** A Status is set at most once: an answered ticket keeps its answer for ever. */
  lemma AnswersAreFinal(es: seq<Event>, e: Event)
    requires Legal(Init, es) && Enabled(Run(Init, es), e)
    ensures
      var w := Run(Init, es);
      && (forall t :: t in w.status ==> t in Step(w, e).status && Step(w, e).status[t] == w.status[t])
      && (IsProcessor(e) && EffectOf(w, e).answer.Some? ==> EffectOf(w, e).answer.value.0 !in w.status)
  {
    var w := Run(Init, es);
    TicketsAreAccounted(es);
    AtMostOneInHand(es);
    if IsProcessor(e) && EffectOf(w, e).answer.Some? {
      var t := EffectOf(w, e).answer.value.0;
      AnswerIsInHand(w, e);
      HandIsCounted(w, e.q, e.f, t);
      assert Places(w, t) <= 1;
    }
  }

  // ---------------------------------------------------------------- order

  /** The items queue i was given by the run, in the order of the schedule calls. */
  ghost function Given(es: seq<Event>, i: nat): seq<Item>
    requires Legal(Init, es)
    decreases |es|
  {
    if es == [] then []
    else
      var w, e := Run(Init, es[..|es| - 1]), es[|es| - 1];
      Given(es[..|es| - 1], i) + GivenBy(w, e, i)
  }

  /** The items the processors of queue i popped, in the order they did. */
  ghost function Taken(es: seq<Event>, i: nat): seq<Item>
    requires Legal(Init, es)
    decreases |es|
  {
    if es == [] then []
    else
      var w, e := Run(Init, es[..|es| - 1]), es[|es| - 1];
      Taken(es[..|es| - 1], i) + TakenBy(w, e, i)
  }

  /** What the history of a queue says about it: the items taken followed by the
      items queued are the items given, and an item in hand is the last one taken. */
  predicate InOrder(q: QueueState, taken: seq<Item>, given: seq<Item>) {
    && taken + q.items == given
    && forall frame :: frame in q.frames ==> taken != [] && frame.item == taken[|taken| - 1]
  }

  predicate Pops(q: QueueState, e: Event) {
    e.Start? && !q.locked && q.items != []
  }

  /** After a processor step the hand holds what was popped, or what it held before. */
  lemma EffectFrames(w: World, e: Event)
    requires IsProcessor(e) && Enabled(w, e) && Exclusive(w.queues[e.q])
    ensures
      var q, q' := w.queues[e.q], EffectOf(w, e).queue;
      && q'.items == (if Pops(q, e) then q.items[1..] else q.items)
      && forall frame :: frame in q'.frames ==>
           if Pops(q, e) then frame.item == q.items[0] else q.frames != [] && frame.item == q.frames[0].item
  {
    var q := w.queues[e.q];
    if Pops(q, e) {
      assert Popped(q.(ready := q.ready - 1)).frames == [Sending(q.items[0])];
    }
  }

  lemma EffectKeepsOrder(w: World, e: Event, taken: seq<Item>, given: seq<Item>)
    requires IsProcessor(e) && Enabled(w, e) && Exclusive(w.queues[e.q]) && InOrder(w.queues[e.q], taken, given)
    ensures
      var q := w.queues[e.q];
      InOrder(EffectOf(w, e).queue, if Pops(q, e) then taken + [q.items[0]] else taken, given)
  {
    EffectFrames(w, e);
    var q := w.queues[e.q];
    if Pops(q, e) {
      assert (taken + [q.items[0]]) + q.items[1..] == taken + q.items;
    } else if q.frames != [] {
      assert q.frames[0] in q.frames;
    }
  }

  lemma ScheduledKeepsOrder(q: QueueState, item: Item, taken: seq<Item>, given: seq<Item>)
    requires InOrder(q, taken, given)
    ensures InOrder(Scheduled(q, item), taken, given + [item])
  {
    assert taken + (q.items + [item]) == given + [item];
  }

  /** First in, first out, in every run. */
  lemma {:induction false} OrderIsKept(es: seq<Event>, i: nat)
    requires Legal(Init, es)
    ensures
      if i < |Run(Init, es).queues| then InOrder(Run(Init, es).queues[i], Taken(es, i), Given(es, i))
      else Taken(es, i) == Given(es, i) == []
    decreases |es|
  {
    if es != [] {
      var before := es[..|es| - 1];
      var w, e := Run(Init, before), es[|es| - 1];
      OrderIsKept(before, i);
      AtMostOneInHand(before);
      StepKeepsOrder(w, e, i, Taken(before, i), Given(before, i));
    }
  }

  /** What one event gives to queue i, and what it takes from it. */
  function GivenBy(w: World, e: Event, i: nat): seq<Item>
    requires Enabled(w, e)
  {
    if e == Schedule(i) && Issues(w, e) then [Item(w.next, BlockedAt(w, i).value)] else []
  }

  function TakenBy(w: World, e: Event, i: nat): seq<Item>
    requires Enabled(w, e)
  {
    if e == Start(i) && Pops(w.queues[i], e) then [w.queues[i].items[0]] else []
  }

  lemma StepKeepsOrder(w: World, e: Event, i: nat, taken: seq<Item>, given: seq<Item>)
    requires Enabled(w, e) && Sound(w)
    requires if i < |w.queues| then InOrder(w.queues[i], taken, given) else taken == given == []
    ensures
      if i < |Step(w, e).queues| then InOrder(Step(w, e).queues[i], taken + TakenBy(w, e, i), given + GivenBy(w, e, i))
      else taken + TakenBy(w, e, i) == given + GivenBy(w, e, i) == []
  {
    if IsProcessor(e) && e.q == i {
      EffectKeepsOrder(w, e, taken, given);
      assert Step(w, e).queues[i] == EffectOf(w, e).queue;
    } else if e == Schedule(i) && Issues(w, e) {
      ScheduledKeepsOrder(w.queues[i], GivenBy(w, e, i)[0], taken, given);
      assert taken + TakenBy(w, e, i) == taken;
    } else if i < |w.queues| {
      assert TakenBy(w, e, i) == GivenBy(w, e, i) == [];
      assert taken + [] == taken && given + [] == given;
    }
  }
}
