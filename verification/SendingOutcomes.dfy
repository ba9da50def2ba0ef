/**
 What becomes of every scheduled item: why a Status gets its value, when the
 group counters are exact, and that runs of processor steps drain the queues.
 */
module SendingOutcomes {
  import opened Wrappers
  import opened SendingQueue
  import opened SendingRuns

  // ---------------------------------------------------------------- the life of a ticket

  /** What a run did for a ticket: whether a block was active on scheduling,
      the block checks made for it, and how its sends ended. */
  datatype Life = Life(flag: Option<bool>, checks: seq<bool>, sends: seq<Outcome>)

  /** The ticket whose item an event of a processor is about. */
  function Subject(w: World, e: Event): Option<Ticket>
    requires Enabled(w, e)
  {
    match e
    case Start(i) => if Pops(w.queues[i], e) then Some(w.queues[i].items[0].ticket) else None
    case Wake(i, f) => Some(w.queues[i].frames[f].item.ticket)
    case SendEnds(i, f, _) => Some(w.queues[i].frames[f].item.ticket)
    case _ => None
  }

  /** The block check an event makes, if any. */
  function CheckOf(w: World, e: Event): seq<bool>
    requires Enabled(w, e)
  {
    var looks :=
      || (e.Start? && Pops(w.queues[e.q], e) && w.queues[e.q].items[0].blocked)
      || (e.Wake? && w.queues[e.q].frames[e.f].checks < RETRY_CHECKS);
    if looks && BlockedAt(w, e.q).Some? then [BlockedAt(w, e.q).value] else []
  }

  function Seen(w: World, e: Event, t: Ticket, life: Life): Life
    requires Enabled(w, e)
  {
    if Issues(w, e) && t == w.next then life.(flag := BlockedAt(w, e.q))
    else if Subject(w, e) == Some(t) then
      life.(checks := life.checks + CheckOf(w, e),
            sends := life.sends + (if e.SendEnds? then [e.outcome] else []))
    else life
  }

  ghost function Lived(es: seq<Event>, t: Ticket): Life
    requires Legal(Init, es)
    decreases |es|
  {
    if es == [] then Life(None, [], [])
    else Seen(Run(Init, es[..|es| - 1]), es[|es| - 1], t, Lived(es[..|es| - 1], t))
  }

  predicate AllTrue(s: seq<bool>) {
    forall b :: b in s ==> b
  }

  /** Not blocked on scheduling, or released at a check within the retry window. */
  predicate Passed(life: Life) {
    match life.flag
    case None => false
    case Some(false) => life.checks == []
    case Some(true) =>
      var n := |life.checks|;
      1 <= n <= RETRY_CHECKS && !life.checks[n - 1] && AllTrue(life.checks[..n - 1])
  }

  /** Blocked on scheduling, and blocked at every check of the retry window. */
  predicate HeldBack(life: Life, checks: nat) {
    life.flag == Some(true) && |life.checks| == checks && AllTrue(life.checks) && life.sends == []
  }

  predicate FrameFits(frame: Frame, life: Life) {
    match frame
    case Waiting(item, checks) => item.blocked && HeldBack(life, checks)
    case Sending(item) => Passed(life) && life.flag == Some(item.blocked) && life.sends == []
  }

  /** The life of a ticket fits the place it has in a queue. */
  predicate QueueFits(q: QueueState, t: Ticket, life: Life) {
    && (forall item :: item in q.items && item.ticket == t ==> life == Life(Some(item.blocked), [], []))
    && (forall frame :: frame in q.frames && frame.item.ticket == t ==> FrameFits(frame, life))
  }

  /** Set to a success by a send that returned nothing or something true. */
  predicate AnswersSend(answer: bool, outcome: Outcome) {
    answer <==> outcome == Returned(None) || outcome == Returned(Some(true))
  }

  predicate AnswerFits(answer: bool, life: Life) {
    || (|life.sends| == 1 && AnswersSend(answer, life.sends[0]) && Passed(life))
    || (!answer && HeldBack(life, RETRY_CHECKS))
  }

  predicate Fits(w: World, t: Ticket, life: Life) {
    && (t >= w.next ==> life == Life(None, [], []))
    && (t in w.status ==> AnswerFits(w.status[t], life))
    && (forall i :: 0 <= i < |w.queues| ==> QueueFits(w.queues[i], t, life))
  }

  lemma {:induction false} AbsentTicket(items: seq<Item>, t: Ticket)
    requires TicketsIn(items)[t] == 0
    ensures forall item :: item in items ==> item.ticket != t
  {
    forall k | 0 <= k < |items| ensures items[k].ticket != t {
      TicketsPresent(items, k);
    }
  }

  lemma AbsentFits(q: QueueState, t: Ticket, life: Life)
    requires Exclusive(q) && Holds(t)(q) == 0
    ensures QueueFits(q, t, life)
  {
    AbsentTicket(q.items, t);
    HeldByOne(q.frames);
  }

  /** A processor leaves the tickets that it is not about as they are. */
  lemma OthersFit(w: World, e: Event, t: Ticket, life: Life)
    requires IsProcessor(e) && Enabled(w, e) && Exclusive(w.queues[e.q]) && QueueFits(w.queues[e.q], t, life)
    requires Subject(w, e) != Some(t)
    ensures QueueFits(EffectOf(w, e).queue, t, life)
  {
    var q := w.queues[e.q];
    EffectFrames(w, e);
    if e.Start? && !Pops(q, e) {
      assert EffectOf(w, e).queue.frames == q.frames;
    }
  }

  /** A popped item that was scheduled without a block is sent at once. */
  lemma UnblockedStartFits(w: World, e: Event, t: Ticket)
    requires e.Start? && Enabled(w, e) && Exclusive(w.queues[e.q]) && Subject(w, e) == Some(t)
    requires Holds(t)(w.queues[e.q]) == 1 && !w.queues[e.q].items[0].blocked
    ensures QueueFits(EffectOf(w, e).queue, t, Life(Some(false), [], []))
  {
    var q, q' := w.queues[e.q], EffectOf(w, e).queue;
    OnlyAtFront(q, t);
    assert q'.items == q.items[1..] && q'.frames == [Sending(q.items[0])];
    OnlyFrameFits(q', Sending(q.items[0]), t, Life(Some(false), [], []));
  }

  /** What the first check makes of a popped item. */
  lemma FirstCheck(w: World, e: Event)
    requires e.Start? && Enabled(w, e) && Exclusive(w.queues[e.q]) && Pops(w.queues[e.q], e) && w.queues[e.q].items[0].blocked
    ensures
      var q, q' := w.queues[e.q], EffectOf(w, e).queue;
      && q'.items == q.items[1..]
      && q'.frames == match BlockedAt(w, e.q) {
           case None => []
           case Some(b) => [if b then Waiting(q.items[0], 1) else Sending(q.items[0])] }
  {
    var q := w.queues[e.q];
    StartedPops(q, BlockedAt(w, e.q), q.group in w.pending);
    assert Popped(q.(ready := q.ready - 1)).frames == [Sending(q.items[0])];
  }

  /** A popped item that was scheduled under a block waits, unless the first check finds none. */
  lemma BlockedStartFits(w: World, e: Event, t: Ticket)
    requires e.Start? && Enabled(w, e) && Exclusive(w.queues[e.q]) && Subject(w, e) == Some(t)
    requires Holds(t)(w.queues[e.q]) == 1 && w.queues[e.q].items[0].blocked
    ensures QueueFits(EffectOf(w, e).queue, t, Life(Some(true), CheckOf(w, e), []))
  {
    var q, q', life := w.queues[e.q], EffectOf(w, e).queue, Life(Some(true), [], []);
    OnlyAtFront(q, t);
    FirstCheck(w, e);
    match BlockedAt(w, e.q) {
      case None =>
      case Some(b) =>
        OneCheckMore(life, q.items[0], 0, b);
        assert CheckOf(w, e) == [b] && life.checks + [b] == [b];
        OnlyFrameFits(q', if b then Waiting(q.items[0], 1) else Sending(q.items[0]), t, Life(Some(true), [b], []));
    }
  }

  lemma StartFits(w: World, e: Event, t: Ticket, life: Life)
    requires e.Start? && Enabled(w, e) && Exclusive(w.queues[e.q]) && QueueFits(w.queues[e.q], t, life)
    requires Holds(t)(w.queues[e.q]) == 1 && Subject(w, e) == Some(t)
    ensures QueueFits(EffectOf(w, e).queue, t, Seen(w, e, t, life))
  {
    var item := w.queues[e.q].items[0];
    assert item in w.queues[e.q].items && life == Life(Some(item.blocked), [], []);
    assert [] + CheckOf(w, e) == CheckOf(w, e);
    if item.blocked { BlockedStartFits(w, e, t); } else { UnblockedStartFits(w, e, t); }
  }

  /** A ticket at the front of an idle queue is nowhere else in it. */
  lemma OnlyAtFront(q: QueueState, t: Ticket)
    requires q.items != [] && q.items[0].ticket == t && Holds(t)(q) == 1
    ensures forall item :: item in q.items[1..] ==> item.ticket != t
  {
    TicketsPop(q.items);
    AbsentTicket(q.items[1..], t);
  }

  /** The one processor of a queue holds the ticket, and nobody else does. */
  lemma InHandOnly(q: QueueState, f: nat, t: Ticket)
    requires Exclusive(q) && f < |q.frames| && q.frames[f].item.ticket == t && Holds(t)(q) == 1
    ensures f == 0 && q.frames == [q.frames[0]] && q.frames[0] in q.frames
    ensures forall item :: item in q.items ==> item.ticket != t
  {
    OneFrame(q, f, false);
    HeldByOne(q.frames);
    AbsentTicket(q.items, t);
  }

  lemma LastWakeFits(w: World, e: Event, t: Ticket, life: Life)
    requires e.Wake? && Enabled(w, e) && Exclusive(w.queues[e.q]) && QueueFits(w.queues[e.q], t, life)
    requires Holds(t)(w.queues[e.q]) == 1 && Subject(w, e) == Some(t) && w.queues[e.q].frames[e.f].checks >= RETRY_CHECKS
    ensures QueueFits(EffectOf(w, e).queue, t, Seen(w, e, t, life))
    ensures EffectOf(w, e).answer == Some((t, false)) && AnswerFits(false, Seen(w, e, t, life))
  {
    var q := w.queues[e.q];
    InHandOnly(q, e.f, t);
    assert FrameFits(q.frames[0], life);
    assert life.checks + [] == life.checks && life.sends + [] == life.sends;
    assert EffectOf(w, e).queue.frames == [] && EffectOf(w, e).queue.items == q.items;
  }

  /** The ticket is in the one frame of the queue, and that fits. */
  lemma OnlyFrameFits(q: QueueState, frame: Frame, t: Ticket, life: Life)
    requires q.frames == [frame] && FrameFits(frame, life) && forall item :: item in q.items ==> item.ticket != t
    ensures QueueFits(q, t, life)
  {
  }

  /** One more check lengthens the wait or ends it in time. */
  lemma OneCheckMore(life: Life, item: Item, checks: nat, blocked: bool)
    requires item.blocked && HeldBack(life, checks) && checks < RETRY_CHECKS
    ensures var life' := life.(checks := life.checks + [blocked]);
      FrameFits(if blocked then Waiting(item, checks + 1) else Sending(item), life')
  {
    var longer := life.checks + [blocked];
    assert longer[..|longer| - 1] == life.checks;
  }

  lemma CheckFits(w: World, e: Event, t: Ticket, life: Life)
    requires e.Wake? && Enabled(w, e) && Exclusive(w.queues[e.q]) && QueueFits(w.queues[e.q], t, life)
    requires Holds(t)(w.queues[e.q]) == 1 && Subject(w, e) == Some(t) && w.queues[e.q].frames[e.f].checks < RETRY_CHECKS
    ensures QueueFits(EffectOf(w, e).queue, t, Seen(w, e, t, life)) && EffectOf(w, e).answer.None?
  {
    var q, blocked := w.queues[e.q], BlockedAt(w, e.q);
    InHandOnly(q, e.f, t);
    var item, checks := q.frames[0].item, q.frames[0].checks;
    assert FrameFits(q.frames[0], life);
    var q', life' := EffectOf(w, e).queue, Seen(w, e, t, life);
    assert q'.items == q.items && life.sends + [] == life.sends;
    match blocked {
      case None =>
        assert q'.frames == [];
      case Some(b) =>
        OneCheckMore(life, item, checks, b);
        OnlyFrameFits(q', if b then Waiting(item, checks + 1) else Sending(item), t, life');
    }
  }

  lemma WakeFits(w: World, e: Event, t: Ticket, life: Life)
    requires e.Wake? && Enabled(w, e) && Exclusive(w.queues[e.q]) && QueueFits(w.queues[e.q], t, life)
    requires Holds(t)(w.queues[e.q]) == 1 && Subject(w, e) == Some(t)
    ensures QueueFits(EffectOf(w, e).queue, t, Seen(w, e, t, life))
    ensures EffectOf(w, e).answer.Some? ==> AnswerFits(EffectOf(w, e).answer.value.1, Seen(w, e, t, life))
  {
    if w.queues[e.q].frames[e.f].checks < RETRY_CHECKS { CheckFits(w, e, t, life); } else { LastWakeFits(w, e, t, life); }
  }

  lemma SendEndFits(w: World, e: Event, t: Ticket, life: Life)
    requires e.SendEnds? && Enabled(w, e) && Exclusive(w.queues[e.q]) && QueueFits(w.queues[e.q], t, life)
    requires Holds(t)(w.queues[e.q]) == 1 && Subject(w, e) == Some(t)
    ensures QueueFits(EffectOf(w, e).queue, t, Seen(w, e, t, life))
    ensures EffectOf(w, e).answer.Some? && AnswerFits(EffectOf(w, e).answer.value.1, Seen(w, e, t, life))
  {
    var q := w.queues[e.q];
    InHandOnly(q, e.f, t);
    assert FrameFits(q.frames[0], life);
    assert life.checks + [] == life.checks && life.sends + [e.outcome] == [e.outcome];
    assert EffectOf(w, e).queue.frames == [] && EffectOf(w, e).queue.items == q.items;
    assert EffectOf(w, e).answer == Some((t, Success(e.outcome)));
    SuccessInWords(e.outcome);
    assert Seen(w, e, t, life).sends == [e.outcome] && Passed(Seen(w, e, t, life));
  }

  lemma SuccessInWords(outcome: Outcome)
    ensures AnswersSend(Success(outcome), outcome)
  {
    match outcome {
      case Raised =>
      case Returned(None) =>
      case Returned(Some(result)) =>
    }
  }

  lemma ApplyFits(w: World, i: nat, effect: Effect, t: Ticket, life: Life)
    requires i < |w.queues| && QueueFits(effect.queue, t, life)
    requires forall j :: 0 <= j < |w.queues| && j != i ==> QueueFits(w.queues[j], t, life)
    requires t >= w.next ==> life == Life(None, [], [])
    requires t in w.status ==> AnswerFits(w.status[t], life)
    requires effect.answer.Some? && effect.answer.value.0 == t ==> AnswerFits(effect.answer.value.1, life)
    ensures Fits(Apply(w, i, effect), t, life)
  {
  }

  lemma SubjectFits(w: World, e: Event, t: Ticket, life: Life)
    requires IsProcessor(e) && Enabled(w, e) && Exclusive(w.queues[e.q]) && QueueFits(w.queues[e.q], t, life)
    requires Holds(t)(w.queues[e.q]) == 1 && Subject(w, e) == Some(t)
    ensures QueueFits(EffectOf(w, e).queue, t, Seen(w, e, t, life))
    ensures EffectOf(w, e).answer.Some? ==> AnswerFits(EffectOf(w, e).answer.value.1, Seen(w, e, t, life))
  {
    if e.Start? {
      StartFits(w, e, t, life);
      StartGivesNoAnswer(w, e);
    } else if e.Wake? {
      WakeFits(w, e, t, life);
    } else {
      SendEndFits(w, e, t, life);
    }
  }

  lemma OwnStepFits(w: World, e: Event, t: Ticket, life: Life)
    requires IsProcessor(e) && Enabled(w, e) && Sound(w) && Places(w, t) <= (if t < w.next then 1 else 0) && Fits(w, t, life)
    requires Subject(w, e) == Some(t)
    ensures Fits(Step(w, e), t, Seen(w, e, t, life))
  {
    var effect, life' := EffectOf(w, e), Seen(w, e, t, life);
    OwnTicket(w, e, t);
    SubjectFits(w, e, t, life);
    OthersAreAbsent(w, e.q, t, life');
    OwnApplyFits(w, e.q, effect, t, life');
    assert Step(w, e) == Apply(w, e.q, effect);
  }

  lemma OwnApplyFits(w: World, i: nat, effect: Effect, t: Ticket, life: Life)
    requires i < |w.queues| && QueueFits(effect.queue, t, life) && t < w.next && t !in w.status
    requires forall j :: 0 <= j < |w.queues| && j != i ==> QueueFits(w.queues[j], t, life)
    requires effect.answer.Some? ==> AnswerFits(effect.answer.value.1, life)
    ensures Fits(Apply(w, i, effect), t, life)
  {
    ApplyFits(w, i, effect, t, life);
  }

  lemma OwnTicket(w: World, e: Event, t: Ticket)
    requires IsProcessor(e) && Enabled(w, e) && Sound(w) && Places(w, t) <= (if t < w.next then 1 else 0)
    requires Subject(w, e) == Some(t)
    ensures t < w.next && t !in w.status && Holds(t)(w.queues[e.q]) == 1
    ensures forall j :: 0 <= j < |w.queues| && j != e.q ==> Holds(t)(w.queues[j]) == 0
  {
    SubjectIsCounted(w, e, t);
    TotalBounds(w.queues, Holds(t), e.q);
  }

  lemma OthersAreAbsent(w: World, i: nat, t: Ticket, life: Life)
    requires Sound(w) && forall j :: 0 <= j < |w.queues| && j != i ==> Holds(t)(w.queues[j]) == 0
    ensures forall j :: 0 <= j < |w.queues| && j != i ==> QueueFits(w.queues[j], t, life)
  {
    forall j | 0 <= j < |w.queues| && j != i ensures QueueFits(w.queues[j], t, life) {
      AbsentFits(w.queues[j], t, life);
    }
  }

  lemma ProcessorFits(w: World, e: Event, t: Ticket, life: Life)
    requires IsProcessor(e) && Enabled(w, e) && Sound(w) && Places(w, t) <= (if t < w.next then 1 else 0) && Fits(w, t, life)
    ensures Fits(Step(w, e), t, Seen(w, e, t, life))
  {
    if Subject(w, e) == Some(t) {
      OwnStepFits(w, e, t, life);
    } else {
      var effect, life' := EffectOf(w, e), Seen(w, e, t, life);
      OthersFit(w, e, t, life);
      if effect.answer.Some? { AnswerIsInHand(w, e); }
      ApplyFits(w, e.q, effect, t, life');
    }
  }

  lemma StartGivesNoAnswer(w: World, e: Event)
    requires e.Start? && Enabled(w, e)
    ensures EffectOf(w, e).answer.None?
  {
  }

  /** A ticket that some queue holds is held once, by that queue, and has no answer. */
  lemma HeldHere(w: World, i: nat, t: Ticket)
    requires i < |w.queues| && Holds(t)(w.queues[i]) >= 1 && Places(w, t) <= 1
    ensures Holds(t)(w.queues[i]) == 1 && Places(w, t) == 1 && t !in w.status
    ensures forall j :: 0 <= j < |w.queues| && j != i ==> Holds(t)(w.queues[j]) == 0
  {
    TotalBounds(w.queues, Holds(t), i);
  }

  lemma SubjectIsCounted(w: World, e: Event, t: Ticket)
    requires IsProcessor(e) && Enabled(w, e) && Exclusive(w.queues[e.q]) && Subject(w, e) == Some(t) && Places(w, t) <= 1
    ensures Holds(t)(w.queues[e.q]) == 1 && t !in w.status
    ensures forall j :: 0 <= j < |w.queues| && j != e.q ==> Holds(t)(w.queues[j]) == 0
  {
    SubjectIsHeld(w, e, t);
    HeldHere(w, e.q, t);
  }

  lemma SubjectIsHeld(w: World, e: Event, t: Ticket)
    requires IsProcessor(e) && Enabled(w, e) && Exclusive(w.queues[e.q]) && Subject(w, e) == Some(t)
    ensures Holds(t)(w.queues[e.q]) >= 1
  {
    var q := w.queues[e.q];
    if e.Start? {
      TicketsPresent(q.items, 0);
    } else {
      OneFrame(q, e.f, false);
      HeldByOne(q.frames);
    }
  }

  lemma IssueFits(w: World, e: Event, t: Ticket, life: Life)
    requires Enabled(w, e) && Issues(w, e) && Sound(w) && Fits(w, t, life)
    requires t == w.next ==> Places(w, t) <= 0
    ensures Fits(Step(w, e), t, Seen(w, e, t, life))
  {
    var item := Item(w.next, BlockedAt(w, e.q).value);
    var q' := Scheduled(w.queues[e.q], item);
    var life' := Seen(w, e, t, life);
    assert Step(w, e).queues == w.queues[e.q := q'];
    if t == w.next {
      TotalNonNegative(w.queues, Holds(t));
      forall j | 0 <= j < |w.queues| ensures QueueFits(w.queues[j], t, life') {
        TotalBounds(w.queues, Holds(t), j);
        AbsentFits(w.queues[j], t, life');
      }
    }
    assert QueueFits(q', t, life');
  }

  lemma IdleFits(w: World, e: Event, t: Ticket, life: Life)
    requires Enabled(w, e) && !IsProcessor(e) && !Issues(w, e) && Fits(w, t, life)
    ensures Fits(Step(w, e), t, life)
  {
    if e.BlockQueue? {
      assert QueueFits(w.queues[e.q].(instanceBlock := true), t, life);
    }
  }

  lemma StepFits(w: World, e: Event, t: Ticket, life: Life)
    requires Enabled(w, e) && Sound(w) && Places(w, t) <= (if t < w.next then 1 else 0) && Fits(w, t, life)
    ensures Fits(Step(w, e), t, Seen(w, e, t, life))
  {
    if IsProcessor(e) {
      ProcessorFits(w, e, t, life);
    } else if Issues(w, e) {
      IssueFits(w, e, t, life);
    } else {
      IdleFits(w, e, t, life);
    }
  }

  lemma {:induction false} LifeFits(es: seq<Event>, t: Ticket)
    requires Legal(Init, es)
    ensures Fits(Run(Init, es), t, Lived(es, t))
    decreases |es|
  {
    if es != [] {
      var before := es[..|es| - 1];
      LifeFits(before, t);
      AtMostOneInHand(before);
      TicketsAreAccounted(before);
      StepFits(Run(Init, before), es[|es| - 1], t, Lived(before, t));
    }
  }

  /** Sent exactly once, after no block or after a release within the retry
      window, and a success exactly if that send returned nothing or something
      true; or never sent, a failure, with a block on scheduling and at all 51 checks. */
  predicate HasCause(life: Life, answer: bool) {
    var Life(flag, checks, sends) := life;
    || (&& |sends| == 1 && (answer <==> sends[0] == Returned(None) || sends[0] == Returned(Some(true)))
        && (|| (flag == Some(false) && checks == [])
            || (flag == Some(true) && 1 <= |checks| <= 51 && !checks[|checks| - 1] && forall k :: 0 <= k < |checks| - 1 ==> checks[k])))
    || (sends == [] && !answer && flag == Some(true) && |checks| == 51 && forall k :: 0 <= k < 51 ==> checks[k])
  }

  /** In every run a set Status has one of two causes. */
  lemma EveryAnswerHasACause(es: seq<Event>, t: Ticket)
    requires Legal(Init, es) && t in Run(Init, es).status
    ensures HasCause(Lived(es, t), Run(Init, es).status[t])
  {
    LifeFits(es, t);
    CausesInWords(Lived(es, t), Run(Init, es).status[t]);
  }

  lemma CausesInWords(life: Life, answer: bool)
    requires AnswerFits(answer, life)
    ensures HasCause(life, answer)
  {
    AllTrueAt(life.checks);
  }

  lemma AllTrueAt(checks: seq<bool>)
    ensures AllTrue(checks) ==> forall k :: 0 <= k < |checks| ==> checks[k]
    ensures checks != [] && AllTrue(checks[..|checks| - 1]) ==> forall k :: 0 <= k < |checks| - 1 ==> checks[k]
  {
    assert forall k :: 0 <= k < |checks| ==> checks[k] in checks;
    if checks != [] {
      var before := checks[..|checks| - 1];
      assert forall k :: 0 <= k < |before| ==> checks[k] == before[k] && before[k] in before;
    }
  }
}
