/** When a queue is blocked, over all runs: by the blocks that were set and not released since. */
module SendingBlocks {
  import opened Wrappers
  import opened SendingQueue
  import opened SendingRuns

  /** The event sets the block of a key: of a group, or of all queues. */
  predicate Sets(e: Event, key: string) {
    e == BlockGroup(key) || (e == BlockAll && key == "__global__")
  }

  predicate Releases(e: Event, key: string) {
    e == ReleaseGroup(key) || e == ReleaseAll
  }

  /** The block was set, and nothing has released it since. */
  predicate InForce(es: seq<Event>, key: string) {
    exists n :: 0 <= n < |es| && Sets(es[n], key) && forall m :: n < m < |es| ==> !Releases(es[m], key)
  }

  lemma InForceStep(es: seq<Event>, key: string)
    requires es != []
    ensures InForce(es, key) <==>
      Sets(es[|es| - 1], key) || (InForce(es[..|es| - 1], key) && !Releases(es[|es| - 1], key))
  {
    var before := es[..|es| - 1];
    if InForce(es, key) {
      var n :| 0 <= n < |es| && Sets(es[n], key) && forall m :: n < m < |es| ==> !Releases(es[m], key);
      assert n < |before| ==> Sets(before[n], key);
    }
    if InForce(before, key) && !Releases(es[|es| - 1], key) {
      var n :| 0 <= n < |before| && Sets(before[n], key) && forall m :: n < m < |before| ==> !Releases(before[m], key);
      forall m | n < m < |es| ensures !Releases(es[m], key) {
        assert m < |before| ==> es[m] == before[m];
      }
      assert Sets(es[n], key);
    }
    assert Sets(es[|es| - 1], key) ==> InForce(es, key);
  }

  predicate Blocks(w: World, key: string) {
    key in w.blocks && w.blocks[key]
  }

  lemma StepBlocks(w: World, e: Event, key: string)
    requires Enabled(w, e)
    ensures Blocks(Step(w, e), key) <==> Sets(e, key) || (Blocks(w, key) && !Releases(e, key))
  {
  }

  /** The dictionary of blocks says what is in force. */
  lemma {:induction false} BlocksAreInForce(es: seq<Event>, key: string)
    requires Legal(Init, es)
    ensures InForce(es, key) <==> Blocks(Run(Init, es), key)
    decreases |es|
  {
    if es != [] {
      BlocksAreInForce(es[..|es| - 1], key);
      InForceStep(es, key);
      StepBlocks(Run(Init, es[..|es| - 1]), es[|es| - 1], key);
    }
  }

  /** The block of an instance is permanent. */
  lemma {:induction false} InstanceBlocksStay(es: seq<Event>, i: nat)
    requires Legal(Init, es) && i < |Run(Init, es).queues|
    ensures Run(Init, es).queues[i].instanceBlock <==> BlockQueue(i) in es
    decreases |es|
  {
    var before, e := es[..|es| - 1], es[|es| - 1];
    var w := Run(Init, before);
    assert es == before + [e];
    if i < |w.queues| {
      InstanceBlocksStay(before, i);
      if IsProcessor(e) && e.q == i { EffectKeepsInstance(w, e); }
    } else {
      NoEarlyBlock(before, i);
    }
  }

  lemma EffectKeepsInstance(w: World, e: Event)
    requires IsProcessor(e) && Enabled(w, e)
    ensures EffectOf(w, e).queue.instanceBlock == w.queues[e.q].instanceBlock
  {
  }

  lemma {:induction false} NoEarlyBlock(es: seq<Event>, i: nat)
    requires Legal(Init, es) && i >= |Run(Init, es).queues|
    ensures BlockQueue(i) !in es
    decreases |es|
  {
    if es != [] {
      var before, e := es[..|es| - 1], es[|es| - 1];
      assert es == before + [e] && |Run(Init, before).queues| <= |Run(Init, es).queues|;
      NoEarlyBlock(before, i);
    }
  }

  /** In every run a queue is blocked exactly if its instance was ever blocked, or
      a block of its group or of all queues was set and not released since. */
  lemma BlockedExactlyInForce(es: seq<Event>, i: nat)
    requires Legal(Init, es) && i < |Run(Init, es).queues|
    ensures BlockedAt(Run(Init, es), i) == Some(true) <==>
      BlockQueue(i) in es || InForce(es, "__global__") || InForce(es, Run(Init, es).queues[i].group)
  {
    InstanceBlocksStay(es, i);
    BlocksAreInForce(es, "__global__");
    BlocksAreInForce(es, Run(Init, es).queues[i].group);
  }
}
