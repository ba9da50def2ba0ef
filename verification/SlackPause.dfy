/**
 The pause of a Slack channel, over the runs of the sending queues: that the
 messages of one queue never overlap comes from the queue protocol, and that a
 second passes between them from the time that the end of each one leaves behind.
 */
module SlackPause {
  import opened SendingQueue
  import opened SendingRuns
  import SlackRates

  /** A processor of the queue is in its send. */
  predicate InSend(q: QueueState) {
    exists f :: 0 <= f < |q.frames| && q.frames[f].Sending?
  }

  predicate EndsSend(e: Event, i: nat) {
    e.SendEnds? && e.q == i
  }

  /** The time that the field of queue i holds after a run: a second after the
      last end of a send, whatever its outcome. */
  ghost function NextMessage(es: seq<Event>, i: nat, clock: nat -> real): real {
    if es == [] then 0.0
    else if EndsSend(es[|es| - 1], i) then clock(|es| - 1) + 1.0
    else NextMessage(es[..|es| - 1], i, clock)
  }

  ghost predicate Monotone(clock: nat -> real) {
    forall m, n :: m <= n ==> clock(m) <= clock(n)
  }

  lemma {:induction false} PrefixIsLegal(es: seq<Event>, n: nat)
    requires Legal(Init, es) && n <= |es|
    ensures Legal(Init, es[..n]) && (n < |es| ==> Enabled(Run(Init, es[..n]), es[n]))
    ensures n < |es| ==> es[..n + 1][..n] == es[..n] && Legal(Init, es[..n + 1])
    decreases |es| - n
  {
    if n == |es| {
      assert es[..n] == es;
    } else {
      PrefixIsLegal(es, n + 1);
      assert es[..n + 1][..n] == es[..n];
    }
  }

  lemma StepKeepsSend(w: World, e: Event, i: nat)
    requires Enabled(w, e) && Sound(w) && i < |w.queues| && InSend(w.queues[i]) && !EndsSend(e, i)
    ensures i < |Step(w, e).queues| && InSend(Step(w, e).queues[i])
  {
    var f :| 0 <= f < |w.queues[i].frames| && w.queues[i].frames[f].Sending?;
    OneFrame(w.queues[i], f, false);
    if IsProcessor(e) && e.q == i {
      assert e.Start? && Step(w, e).queues[i].frames == w.queues[i].frames;
    }
  }

  /** The world after the first events of a run. */
  ghost function WorldAt(es: seq<Event>, n: nat): World
    requires Legal(Init, es) && n <= |es|
  {
    PrefixIsLegal(es, n);
    Run(Init, es[..n])
  }

  lemma WorldSteps(es: seq<Event>, n: nat)
    requires Legal(Init, es) && n < |es|
    ensures Enabled(WorldAt(es, n), es[n]) && WorldAt(es, n + 1) == Step(WorldAt(es, n), es[n])
  {
    PrefixIsLegal(es, n);
    RunSteps(es[..n + 1]);
  }

  lemma RunSteps(es: seq<Event>)
    requires Legal(Init, es) && es != []
    ensures Legal(Init, es[..|es| - 1]) && Enabled(Run(Init, es[..|es| - 1]), es[|es| - 1])
    ensures Run(Init, es) == Step(Run(Init, es[..|es| - 1]), es[|es| - 1])
  {
  }

  /** Queue i is in a send after the first n events. */
  ghost predicate SendingAt(es: seq<Event>, i: nat, n: nat)
    requires Legal(Init, es) && n <= |es|
  {
    i < |WorldAt(es, n).queues| && InSend(WorldAt(es, n).queues[i])
  }

  /** The event at n begins a send of queue i. */
  ghost predicate BeginsAt(es: seq<Event>, i: nat, n: nat)
    requires Legal(Init, es) && n < |es|
  {
    IsProcessor(es[n]) && es[n].q == i && !SendingAt(es, i, n) && SendingAt(es, i, n + 1)
  }

  lemma SendGoesOn(es: seq<Event>, i: nat, n: nat)
    requires Legal(Init, es) && n < |es| && SendingAt(es, i, n) && !EndsSend(es[n], i)
    ensures SendingAt(es, i, n + 1)
  {
    WorldSteps(es, n);
    PrefixIsLegal(es, n);
    AtMostOneInHand(es[..n]);
    StepKeepsSend(WorldAt(es, n), es[n], i);
  }

  /** A send that has begun goes on until it ends. */
  lemma {:induction false} SendLasts(es: seq<Event>, i: nat, m: nat, n: nat)
    requires Legal(Init, es) && m < n <= |es| && SendingAt(es, i, m + 1)
    requires forall x :: m < x < n ==> !EndsSend(es[x], i)
    ensures SendingAt(es, i, n)
    decreases n
  {
    if n > m + 1 {
      SendLasts(es, i, m, n - 1);
      SendGoesOn(es, i, n - 1);
    }
  }

  /** The field is never less than a second after any end before. */
  lemma {:induction false} FieldIsLate(es: seq<Event>, i: nat, clock: nat -> real, x: nat)
    requires Monotone(clock) && x < |es| && EndsSend(es[x], i)
    ensures NextMessage(es, i, clock) >= clock(x) + 1.0
    decreases |es|
  {
    if !EndsSend(es[|es| - 1], i) {
      FieldIsLate(es[..|es| - 1], i, clock, x);
    } else {
      assert clock(x) <= clock(|es| - 1);
    }
  }

  /** In every run, between two sends of a queue the first one ends, and the
      second one starts at least a second after that. */
  lemma MessagesPause(es: seq<Event>, i: nat, m: nat, n: nat, clock: nat -> real, woken: real, ended: real) returns (x: nat)
    requires Legal(Init, es) && m < n < |es| && BeginsAt(es, i, m) && BeginsAt(es, i, n) && Monotone(clock)
    requires SlackRates.Possible(NextMessage(es[..n], i, clock), SlackRates.Sending(clock(n), woken, ended))
    ensures m < x < n && EndsSend(es[x], i)
    ensures SlackRates.SentAt(NextMessage(es[..n], i, clock), SlackRates.Sending(clock(n), woken, ended)) >= clock(x) + 1.0
  {
    if forall y :: m < y < n ==> !EndsSend(es[y], i) {
      SendLasts(es, i, m, n);
    }
    x :| m < x < n && EndsSend(es[x], i);
    FieldIsLate(es[..n], i, clock, x);
  }
}
