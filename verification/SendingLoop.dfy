/**
 The event loop over the queue objects themselves: every event, performed in
 place on queues that share their class attributes, is the step of the state
 machine that the runs are made of.
 */
module SendingLoop {
  import opened Wrappers
  import opened SendingQueue
  import opened SendingRuns

  class EventLoop {
    const shared: Shared
    var queues: seq<Queue>

    ghost predicate Valid()
      reads this, queues
    {
      && (forall i :: 0 <= i < |queues| ==> queues[i].shared == shared)
      && forall i, j :: 0 <= i < j < |queues| ==> queues[i] != queues[j]
    }

    ghost function States(): (states: seq<QueueState>)
      reads this, queues
      ensures |states| == |queues|
    {
      seq(|queues|, i requires 0 <= i < |queues| reads this, queues => queues[i].State())
    }

    ghost function State(): World
      reads this, queues, shared
    {
      World(States(), shared.blocks, shared.pending, shared.status, shared.next)
    }

    constructor ()
      ensures Valid() && State() == Init
    {
      shared := new Shared();
      queues := [];
    }

    /** One event of the loop, on the objects. */
    method Perform(e: Event)
      requires Valid() && Enabled(State(), e) && Sound(State())
      modifies this, queues, shared
      ensures Valid() && State() == Step(old(State()), e)
    {
      match e {
        case NewQueue(group) =>
          Create(group);
        case ReleaseGroup(group) =>
          shared.ReleaseBlock(Some(group));
          assert States() == old(States());
        case ReleaseAll =>
          shared.ReleaseBlock(None);
          assert States() == old(States());
        case BlockGroup(group) =>
          shared.blocks := shared.blocks[group := true];
          assert States() == old(States());
        case BlockAll =>
          shared.blocks := shared.blocks[GLOBAL := true];
          assert States() == old(States());
        case _ =>
          PerformOn(e);
      }
    }

    method Create(group: string)
      requires Valid()
      modifies this, shared
      ensures Valid() && State() == Step(old(State()), NewQueue(group))
    {
      var q := new Queue(group, shared);
      queues := queues + [q];
      assert States() == old(States()) + [q.State()];
    }

    /** An event of one queue; the others are not touched. */
    method PerformOn(e: Event)
      requires Valid() && Sound(State()) && Enabled(State(), e)
      requires e.Schedule? || e.BlockQueue? || IsProcessor(e)
      modifies queues[e.q], shared
      ensures Valid() && queues == old(queues) && State() == Step(old(State()), e)
    {
      var q := queues[e.q];
      assert old(States())[e.q] == q.State();
      match e {
        case Schedule(_) =>
          var ticket := q.Schedule();
        case BlockQueue(_) =>
          q.instanceBlock := true;
        case Start(_) =>
          q.ProcessStart();
        case Wake(_, f) =>
          q.ProcessWake(f);
        case SendEnds(_, f, outcome) =>
          q.ProcessSent(f, outcome);
      }
      assert States() == old(States())[e.q := q.State()];
    }
  }
}
