/**
 The sending queue protocol: a list of scheduled items per conversation, one
 lock per queue, and class-level dictionaries of blocks and of pending counts
 that all queues of a platform group share.

 The event loop is cooperative, so the code between two awaits is one atomic
 step.  This module has the steps as functions on values; class Queue performs
 them in place, and module SendingRuns reasons about every interleaving.
 */
module SendingQueue {
  import opened Wrappers

  /** Checks of the block before an item is given up: the loop adds 0.1 to a
      double until it is no longer below 5, which takes 51 additions. */
  const RETRY_CHECKS: nat := 51

  /** The key of the block that applies to all queues. */
  const GLOBAL: string := "__global__"

  type Ticket = nat

  /** A scheduled call: the Status it answers, and whether a block was active on scheduling. */
  datatype Item = Item(ticket: Ticket, blocked: bool)

  /** A suspended processor task that holds the item it popped: asleep after a
      number of block checks, or awaiting the end of the send. */
  datatype Frame =
    | Waiting(item: Item, checks: nat)
    | Sending(item: Item)

  /** One queue: its list, its lock, its suspended processors and the processor tasks not yet started. */
  datatype QueueState = QueueState(
    group: string,
    items: seq<Item>,
    locked: bool,
    frames: seq<Frame>,
    ready: nat,
    instanceBlock: bool)

  /** How an awaited send ended: with a value, None for no value, or with an exception. */
  datatype Outcome = Returned(result: Option<bool>) | Raised

  function Success(outcome: Outcome): bool {
    outcome.Returned? && (outcome.result.None? || outcome.result.value)
  }

  /** The block property: None when reading it raises a KeyError. */
  function Blocked(q: QueueState, blocks: map<string, bool>): Option<bool> {
    if q.instanceBlock || (GLOBAL in blocks && blocks[GLOBAL]) then Some(true)
    else if q.group in blocks then Some(blocks[q.group])
    else None
  }

  /** The outcome of a step of a processor: the queue after it, whether the
      processor ended, and the answer it gave to a ticket. */
  datatype Effect = Effect(queue: QueueState, ended: bool, answer: Option<(Ticket, bool)>)

  function Scheduled(q: QueueState, item: Item): QueueState {
    q.(items := q.items + [item], ready := q.ready + 1)
  }

  /** The end of a processor: the lock is released and, if its group is still
      counted, a successor task is created. */
  function Finished(q: QueueState, f: nat, counted: bool): QueueState
    requires f < |q.frames|
  {
    q.(locked := false,
       frames := q.frames[..f] + q.frames[f + 1..],
       ready := if counted then q.ready + 1 else q.ready)
  }

  /** The processor at f looks at the block for the next time. */
  function Checked(q: QueueState, f: nat, checks: nat, blocked: Option<bool>, counted: bool): Effect
    requires f < |q.frames|
  {
    var item := q.frames[f].item;
    match blocked
    case None => Effect(Finished(q, f, counted), true, None)
    case Some(true) => Effect(q.(frames := q.frames[f := Waiting(item, checks + 1)]), false, None)
    case Some(false) => Effect(q.(frames := q.frames[f := Sending(item)]), false, None)
  }

  /** The first item leaves the list for the hand of a new processor, which takes the lock. */
  function Popped(q: QueueState): QueueState
    requires q.items != []
  {
    q.(items := q.items[1..], locked := true, frames := q.frames + [Sending(q.items[0])])
  }

  /** A processor task runs until it returns or suspends for the first time. */
  function Started(q: QueueState, blocked: Option<bool>, counted: bool): Effect
    requires q.ready > 0
  {
    var q := q.(ready := q.ready - 1);
    if q.items == [] || q.locked then Effect(q, false, None)
    else if q.items[0].blocked then Checked(Popped(q), |q.frames|, 0, blocked, counted)
    else Effect(Popped(q), false, None)
  }

  /** A processor that slept because of a block continues. */
  function Woken(q: QueueState, f: nat, blocked: Option<bool>, counted: bool): Effect
    requires f < |q.frames| && q.frames[f].Waiting?
  {
    var Waiting(item, checks) := q.frames[f];
    if checks < RETRY_CHECKS then Checked(q, f, checks, blocked, counted)
    else Effect(Finished(q, f, counted), true, Some((item.ticket, false)))
  }

  /** The awaited send ended. */
  function Sent(q: QueueState, f: nat, outcome: Outcome, counted: bool): Effect
    requires f < |q.frames| && q.frames[f].Sending?
  {
    Effect(Finished(q, f, counted), true, Some((q.frames[f].item.ticket, Success(outcome))))
  }

  /** The decrement at the end of a processor; a KeyError if the group is not counted. */
  function Discount(pending: map<string, int>, group: string): map<string, int> {
    if group in pending then pending[group := pending[group] - 1] else pending
  }

  /** The class attributes of the queues, and the Status objects handed out. */
  class Shared {
    var blocks: map<string, bool>
    var pending: map<string, int>
    var status: map<Ticket, bool>
    var next: Ticket

    constructor ()
      ensures blocks == map[GLOBAL := false] && pending == map[] && status == map[] && next == 0
    {
      blocks, pending, status, next := map[GLOBAL := false], map[], map[], 0;
    }

    /** release_block: for one group, or for all of them. */
    method ReleaseBlock(group: Option<string>)
      modifies this
      ensures group.Some? ==> blocks == old(blocks)[group.value := false] && pending == old(pending)[group.value := 0]
      ensures group.None? ==> blocks == map[GLOBAL := false] && pending == map[]
      ensures status == old(status) && next == old(next)
    {
      if group.None? {
        blocks := map[];
        blocks := blocks[GLOBAL := false];
        pending := map[];
      } else {
        blocks := blocks[group.value := false];
        pending := pending[group.value := 0];
      }
    }
  }

  class Queue {
    const group: string
    const shared: Shared
    var items: seq<Item>
    var locked: bool
    var frames: seq<Frame>
    var ready: nat
    var instanceBlock: bool

    constructor (group: string, shared: Shared)
      modifies shared
      ensures this.shared == shared
      ensures State() == QueueState(group, [], false, [], 0, false)
      ensures shared.blocks == (if group in old(shared.blocks) then old(shared.blocks) else old(shared.blocks)[group := false])
      ensures shared.pending == (if group in old(shared.pending) then old(shared.pending) else old(shared.pending)[group := 0])
      ensures shared.status == old(shared.status) && shared.next == old(shared.next)
    {
      this.group, this.shared := group, shared;
      items, locked, frames, ready, instanceBlock := [], false, [], 0, false;
      new;
      if group !in shared.blocks {
        shared.blocks := shared.blocks[group := false];
      }
      if group !in shared.pending {
        shared.pending := shared.pending[group := 0];
      }
    }

    function State(): QueueState
      reads this
    {
      QueueState(group, items, locked, frames, ready, instanceBlock)
    }

    function IsBlocked(): Option<bool>
      reads this, shared
    {
      Blocked(State(), shared.blocks)
    }

    /** schedule: None when the group is not counted, which raises a KeyError. */
    method Schedule() returns (ticket: Option<Ticket>)
      requires group in shared.pending ==> group in shared.blocks
      modifies this, shared
      ensures group !in old(shared.pending) ==>
        ticket.None? && State() == old(State()) && shared.pending == old(shared.pending) && shared.next == old(shared.next)
      ensures group in old(shared.pending) ==>
        && ticket == Some(old(shared.next)) && shared.next == old(shared.next) + 1
        && State() == Scheduled(old(State()), Item(old(shared.next), old(IsBlocked()).value))
        && shared.pending == old(shared.pending)[group := old(shared.pending)[group] + 1]
      ensures shared.blocks == old(shared.blocks) && shared.status == old(shared.status)
    {
      if group !in shared.pending {
        return None;
      }
      shared.pending := shared.pending[group := shared.pending[group] + 1];
      ticket := Some(shared.next);
      shared.next := shared.next + 1;
      items := items + [Item(ticket.value, IsBlocked().value)];
      ready := ready + 1;
    }

    /** The first stretch of a processor task. */
    method ProcessStart()
      requires ready > 0
      modifies this, shared
      ensures Performed(Started(old(State()), old(IsBlocked()), group in old(shared.pending)), old(shared.pending), old(shared.status))
      ensures shared.blocks == old(shared.blocks) && shared.next == old(shared.next)
    {
      ready := ready - 1;
      if items == [] || locked {
        return;
      }
      locked := true;
      var item := items[0];
      items := items[1..];
      frames := frames + [Sending(item)];
      if item.blocked {
        Check(|frames| - 1, 0);
      }
    }

    /** The stretch after a sleep under a block. */
    method ProcessWake(f: nat)
      requires f < |frames| && frames[f].Waiting?
      modifies this, shared
      ensures Performed(Woken(old(State()), f, old(IsBlocked()), group in old(shared.pending)), old(shared.pending), old(shared.status))
      ensures shared.blocks == old(shared.blocks) && shared.next == old(shared.next)
    {
      if frames[f].checks < RETRY_CHECKS {
        Check(f, frames[f].checks);
      } else {
        shared.status := shared.status[frames[f].item.ticket := false];
        Finish(f);
      }
    }

    /** The stretch after the send. */
    method ProcessSent(f: nat, outcome: Outcome)
      requires f < |frames| && frames[f].Sending?
      modifies this, shared
      ensures Performed(Sent(old(State()), f, outcome, group in old(shared.pending)), old(shared.pending), old(shared.status))
      ensures shared.status == old(shared.status)[old(frames[f]).item.ticket := outcome == Returned(None) || outcome == Returned(Some(true))]
      ensures shared.blocks == old(shared.blocks) && shared.next == old(shared.next)
    {
      var ticket := frames[f].item.ticket;
      match outcome {
        case Raised =>
          shared.status := shared.status[ticket := false];
        case Returned(result) =>
          var success := if result.None? then true else result.value;
          shared.status := shared.status[ticket := if success then true else false];
      }
      Finish(f);
    }

    /** The queue and the shared dictionaries are what the effect says. */
    ghost predicate Performed(effect: Effect, pending: map<string, int>, status: map<Ticket, bool>)
      reads this, shared
    {
      && State() == effect.queue
      && shared.pending == (if effect.ended then Discount(pending, group) else pending)
      && shared.status == match effect.answer { case None => status case Some((ticket, ok)) => status[ticket := ok] }
    }

    method Check(f: nat, checks: nat)
      requires f < |frames|
      modifies this, shared
      ensures Performed(Checked(old(State()), f, checks, old(IsBlocked()), group in old(shared.pending)), old(shared.pending), old(shared.status))
      ensures shared.blocks == old(shared.blocks) && shared.next == old(shared.next)
    {
      var blocked := IsBlocked();
      if blocked.None? {
        Finish(f);
      } else if !blocked.value {
        frames := frames[f := Sending(frames[f].item)];
      } else {
        frames := frames[f := Waiting(frames[f].item, checks + 1)];
      }
    }

    method Finish(f: nat)
      requires f < |frames|
      modifies this, shared
      ensures State() == Finished(old(State()), f, group in old(shared.pending))
      ensures shared.pending == Discount(old(shared.pending), group)
      ensures shared.blocks == old(shared.blocks) && shared.status == old(shared.status) && shared.next == old(shared.next)
    {
      if group in shared.pending {
        shared.pending := shared.pending[group := shared.pending[group] - 1];
        ready := ready + 1;
      }
      frames := frames[..f] + frames[f + 1..];
      locked := false;
    }
  }
}
