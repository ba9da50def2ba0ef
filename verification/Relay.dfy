/**
 One round of the sync handler: a message goes to every target conversation on
 Hangouts and from there to the channels that platform handlers relay it to.

 All deliveries of a round share one set of previous targets.  A delivery looks
 its tag up, adds it, and then awaits an image before it puts the message into a
 sending queue; other handlers run in between.
 */
module Relay {
  import opened Wrappers

  type Tag = string

  /** A delivery loop: the tags it still has to look at, and the tag that passed
      the guard and awaits its image.  The delivery to Hangouts is vital: nothing
      catches its exceptions before the whole round. */
  datatype Handler = Handler(todo: seq<Tag>, held: Option<Tag>, vital: bool)

  /** The handlers of a stage run concurrently, the stages one after another. */
  datatype Round = Round(
    running: seq<Handler>,
    stages: seq<seq<Handler>>,
    previous: set<Tag>,
    queued: seq<Tag>,
    failed: bool)

  /** Guard: the stretch of a handler up to its next await.  Deliver: the await
      ended.  Fail: the await raised, which ends the handler, and with a vital
      one the round. */
  datatype Event = Guard(h: nat) | Deliver(h: nat) | Fail(h: nat) | NextStage

  predicate Finished(h: Handler) {
    h.todo == [] && h.held.None?
  }

  predicate Enabled(r: Round, e: Event) {
    match e
    case Guard(h) => h < |r.running| && r.running[h].held.None? && r.running[h].todo != []
    case Deliver(h) => h < |r.running| && r.running[h].held.Some?
    case Fail(h) => h < |r.running| && r.running[h].held.Some?
    case NextStage => r.stages != [] && forall h :: 0 <= h < |r.running| ==> Finished(r.running[h])
  }

  /** The guard of a delivery: the tag is new, and there is something to deliver. */
  predicate Passes(previous: set<Tag>, tag: Tag, muted: bool) {
    tag !in previous && !muted
  }

  /** The muted tags are those whose delivery would be dropped after the guard:
      a muted conversation, or one for which the message has no text. */
  function Step(muted: set<Tag>, r: Round, e: Event): Round
    requires Enabled(r, e)
  {
    match e
    case Guard(h) =>
      var tag, rest := r.running[h].todo[0], r.running[h].todo[1..];
      r.(running := r.running[h := r.running[h].(todo := rest, held := if Passes(r.previous, tag, tag in muted) then Some(tag) else None)],
         previous := r.previous + {tag})
    case Deliver(h) =>
      r.(running := r.running[h := r.running[h].(held := None)], queued := r.queued + [r.running[h].held.value])
    case Fail(h) =>
      r.(running := r.running[h := r.running[h].(todo := [], held := None)],
         stages := if r.running[h].vital then [] else r.stages, failed := true)
    case NextStage =>
      r.(running := r.stages[0], stages := r.stages[1..])
  }

  ghost predicate Legal(muted: set<Tag>, r: Round, es: seq<Event>)
    decreases |es|
  {
    es == [] || (Enabled(r, es[0]) && Legal(muted, Step(muted, r, es[0]), es[1..]))
  }

  ghost function Run(muted: set<Tag>, r: Round, es: seq<Event>): Round
    requires Legal(muted, r, es)
    decreases |es|
  {
    if es == [] then r else Run(muted, Step(muted, r, es[0]), es[1..])
  }

  /** A handler that has not started. */
  function Fresh(todo: seq<Tag>, vital: bool): Handler {
    Handler(todo, None, vital)
  }

  function Start(previous: set<Tag>, stages: seq<seq<Handler>>): Round {
    Round([], stages, previous, [], false)
  }

  /** The tags a stage still has to look at. */
  function Tags(hs: seq<Handler>): set<Tag> {
    set h, tag | 0 <= h < |hs| && tag in hs[h].todo :: tag
  }

  function TagsLeft(r: Round): set<Tag> {
    Tags(r.running) + set i, tag | 0 <= i < |r.stages| && tag in Tags(r.stages[i]) :: tag
  }

  predicate AllFresh(stages: seq<seq<Handler>>) {
    forall i, h :: 0 <= i < |stages| && 0 <= h < |stages[i]| ==> stages[i][h].held.None?
  }

  predicate NoRepeats(tags: seq<Tag>) {
    forall i, j :: 0 <= i < j < |tags| ==> tags[i] != tags[j]
  }

  predicate Held(r: Round, tag: Tag) {
    exists h :: 0 <= h < |r.running| && r.running[h].held == Some(tag)
  }

  /** What a round keeps: each tag that passed the guard is held once or queued
      once, and unless a handler failed no tag of the round gets lost. */
  ghost predicate Kept(muted: set<Tag>, before: set<Tag>, all: set<Tag>, r: Round) {
    && before <= r.previous <= before + all && TagsLeft(r) <= all && AllFresh(r.stages)
    && NoRepeats(r.queued)
    && (forall tag :: tag in r.queued ==> tag in r.previous && tag !in before && tag !in muted && !Held(r, tag))
    && (forall tag :: Held(r, tag) ==> tag in r.previous && tag !in before && tag !in muted)
    && (forall g, h :: 0 <= g < h < |r.running| && r.running[g].held.Some? ==> r.running[g].held != r.running[h].held)
    && (!r.failed ==>
          && all <= r.previous + TagsLeft(r)
          && forall tag :: tag in r.previous && tag !in before && tag !in muted ==> tag in r.queued || Held(r, tag))
  }

  lemma GuardKeeps(muted: set<Tag>, before: set<Tag>, all: set<Tag>, r: Round, e: Event)
    requires Kept(muted, before, all, r) && Enabled(r, e) && e.Guard?
    ensures Kept(muted, before, all, Step(muted, r, e))
  {
    var r' := Step(muted, r, e);
    var todo := r.running[e.h].todo;
    assert todo == [todo[0]] + todo[1..];
    assert todo[0] in r.running[e.h].todo && todo[0] in Tags(r.running);
    assert r'.running[e.h].todo == todo[1..];
    forall tag ensures Held(r', tag) <==> Held(r, tag) || r'.running[e.h].held == Some(tag) {
      if Held(r, tag) {
        var h :| 0 <= h < |r.running| && r.running[h].held == Some(tag);
        assert r'.running[h].held == Some(tag);
      }
    }
    forall tag | tag in Tags(r.running) ensures tag == todo[0] || tag in Tags(r'.running) {
      var h :| 0 <= h < |r.running| && tag in r.running[h].todo;
      if h != e.h { assert r'.running[h] == r.running[h]; }
    }
    forall tag | tag in Tags(r'.running) ensures tag in Tags(r.running) {
      var h :| 0 <= h < |r'.running| && tag in r'.running[h].todo;
      assert tag in r.running[h].todo;
    }
  }

  lemma DeliverKeeps(muted: set<Tag>, before: set<Tag>, all: set<Tag>, r: Round, e: Event)
    requires Kept(muted, before, all, r) && Enabled(r, e) && e.Deliver?
    ensures Kept(muted, before, all, Step(muted, r, e))
  {
    var r' := Step(muted, r, e);
    var sent := r.running[e.h].held.value;
    assert Held(r, sent);
    forall tag ensures Held(r', tag) <==> Held(r, tag) && tag != sent {
      if Held(r, tag) && tag != sent {
        var h :| 0 <= h < |r.running| && r.running[h].held == Some(tag);
        assert r'.running[h].held == Some(tag);
      }
      if Held(r', tag) {
        var h :| 0 <= h < |r'.running| && r'.running[h].held == Some(tag);
        assert h != e.h && r.running[h].held == Some(tag);
      }
    }
    assert forall h :: 0 <= h < |r.running| ==> r'.running[h].todo == r.running[h].todo;
    assert Tags(r'.running) == Tags(r.running);
  }

  lemma OtherKeeps(muted: set<Tag>, before: set<Tag>, all: set<Tag>, r: Round, e: Event)
    requires Kept(muted, before, all, r) && Enabled(r, e) && (e.Fail? || e.NextStage?)
    ensures Kept(muted, before, all, Step(muted, r, e))
  {
    var r' := Step(muted, r, e);
    if e.Fail? {
      forall tag | Held(r', tag) ensures Held(r, tag) {
        var h :| 0 <= h < |r'.running| && r'.running[h].held == Some(tag);
        assert h != e.h && r.running[h].held == Some(tag);
      }
      forall tag | tag in Tags(r'.running) ensures tag in Tags(r.running) {
        var h :| 0 <= h < |r'.running| && tag in r'.running[h].todo;
        assert tag in r.running[h].todo;
      }
    } else {
      assert Tags(r.running) == {};
      forall tag ensures !Held(r, tag) && !Held(r', tag) {
      }
      forall tag | tag in TagsLeft(r) ensures tag in TagsLeft(r') {
        var i :| 0 <= i < |r.stages| && tag in Tags(r.stages[i]);
        if i > 0 { assert r'.stages[i - 1] == r.stages[i]; }
      }
      forall tag | tag in TagsLeft(r') ensures tag in TagsLeft(r) {
        if tag in Tags(r'.running) { assert tag in Tags(r.stages[0]); }
        else {
          var i :| 0 <= i < |r'.stages| && tag in Tags(r'.stages[i]);
          assert r.stages[i + 1] == r'.stages[i];
        }
      }
    }
  }

  lemma {:induction false} RunKeeps(muted: set<Tag>, before: set<Tag>, all: set<Tag>, r: Round, es: seq<Event>)
    requires Kept(muted, before, all, r) && Legal(muted, r, es)
    ensures Kept(muted, before, all, Run(muted, r, es))
    ensures r.failed ==> Run(muted, r, es).failed
    decreases |es|
  {
    if es != [] {
      match es[0] {
        case Guard(_) => GuardKeeps(muted, before, all, r, es[0]);
        case Deliver(_) => DeliverKeeps(muted, before, all, r, es[0]);
        case _ => OtherKeeps(muted, before, all, r, es[0]);
      }
      RunKeeps(muted, before, all, Step(muted, r, es[0]), es[1..]);
    }
  }

  lemma StartKept(muted: set<Tag>, before: set<Tag>, stages: seq<seq<Handler>>)
    requires AllFresh(stages)
    ensures Kept(muted, before, TagsLeft(Start(before, stages)), Start(before, stages))
  {
  }

  /** The round is over. */
  predicate Over(r: Round) {
    r.stages == [] && forall h :: 0 <= h < |r.running| ==> Finished(r.running[h])
  }

  /** However the handlers interleave, and even if some fail, a round queues no
      destination twice and none that was a previous target. */
  lemma QueuedAtMostOnce(muted: set<Tag>, before: set<Tag>, stages: seq<seq<Handler>>, es: seq<Event>)
    requires AllFresh(stages) && Legal(muted, Start(before, stages), es)
    ensures
      var r := Run(muted, Start(before, stages), es);
      NoRepeats(r.queued) && forall tag :: tag in r.queued ==> tag in TagsLeft(Start(before, stages)) && tag !in before && tag !in muted
  {
    StartKept(muted, before, stages);
    RunKeeps(muted, before, TagsLeft(Start(before, stages)), Start(before, stages), es);
  }

  /** A round that is over without a failed handler has queued exactly the
      destinations that were neither previous targets nor muted. */
  lemma QueuedExactlyOnce(muted: set<Tag>, before: set<Tag>, stages: seq<seq<Handler>>, es: seq<Event>)
    requires AllFresh(stages) && Legal(muted, Start(before, stages), es)
    requires Over(Run(muted, Start(before, stages), es)) && !Run(muted, Start(before, stages), es).failed
    ensures
      var r, all := Run(muted, Start(before, stages), es), TagsLeft(Start(before, stages));
      NoRepeats(r.queued) && (forall tag :: tag in r.queued <==> tag in all && tag !in before && tag !in muted)
      && r.previous == before + all
  {
    StartKept(muted, before, stages);
    RunKeeps(muted, before, TagsLeft(Start(before, stages)), Start(before, stages), es);
    var r := Run(muted, Start(before, stages), es);
    assert Tags(r.running) == {};
    assert TagsLeft(r) == {};
  }

  // ---------------------------------------------------------------- rounds end

  function Cost(hs: seq<Handler>): nat {
    if hs == [] then 0
    else Cost(hs[..|hs| - 1]) + 2 * |hs[|hs| - 1].todo| + (if hs[|hs| - 1].held.Some? then 1 else 0)
  }

  function CostAll(stages: seq<seq<Handler>>): nat {
    if stages == [] then 0 else 1 + Cost(stages[0]) + CostAll(stages[1..])
  }

  lemma {:induction false} CostUpdate(hs: seq<Handler>, i: nat, h: Handler)
    requires i < |hs|
    ensures Cost(hs[i := h]) - 2 * |h.todo| - (if h.held.Some? then 1 else 0)
         == Cost(hs) - 2 * |hs[i].todo| - (if hs[i].held.Some? then 1 else 0)
  {
    var n := |hs| - 1;
    if i < n {
      assert hs[i := h][..n] == hs[..n][i := h];
      CostUpdate(hs[..n], i, h);
    } else {
      assert hs[i := h][..n] == hs[..n];
    }
  }

  lemma {:induction false} FinishedCost(hs: seq<Handler>)
    requires forall h :: 0 <= h < |hs| ==> Finished(hs[h])
    ensures Cost(hs) == 0
  {
    if hs != [] { FinishedCost(hs[..|hs| - 1]); }
  }

  /** Every event brings the round closer to its end, and only a round that is over has none. */
  lemma RoundsEnd(muted: set<Tag>, r: Round)
    ensures forall e :: Enabled(r, e) ==>
      Cost(Step(muted, r, e).running) + CostAll(Step(muted, r, e).stages) < Cost(r.running) + CostAll(r.stages)
    ensures Over(r) <==> forall e :: !Enabled(r, e)
  {
    forall e | Enabled(r, e)
      ensures Cost(Step(muted, r, e).running) + CostAll(Step(muted, r, e).stages) < Cost(r.running) + CostAll(r.stages)
    {
      if e.NextStage? { FinishedCost(r.running); }
      else { CostUpdate(r.running, e.h, Step(muted, r, e).running[e.h]); }
    }
    if forall e :: !Enabled(r, e) {
      assert !Enabled(r, NextStage);
      forall h | 0 <= h < |r.running| ensures Finished(r.running[h]) {
        assert !Enabled(r, Guard(h)) && !Enabled(r, Deliver(h));
      }
    }
  }

  // ---------------------------------------------------------------- the round of a message

  /** The tag of a conversation on Hangouts. */
  function HangoutsTag(conv: string): Tag {
    "hangouts:" + conv
  }

  /** For each target the message first goes to Hangouts, then all platform
      handlers run, each over the channels it syncs with that conversation. */
  function StagesFor(targets: seq<string>, channels: string -> seq<seq<Tag>>): seq<seq<Handler>> {
    if targets == [] then []
    else
      [[Fresh([HangoutsTag(targets[0])], true)], Relays(channels(targets[0]))] + StagesFor(targets[1..], channels)
  }

  function StageTags(stages: seq<seq<Handler>>): set<Tag> {
    set i, tag | 0 <= i < |stages| && tag in Tags(stages[i]) :: tag
  }

  /** The handlers of the platforms, each over its channels. */
  function Relays(channels: seq<seq<Tag>>): seq<Handler> {
    seq(|channels|, i requires 0 <= i < |channels| => Fresh(channels[i], false))
  }

  lemma RelaysTags(channels: seq<seq<Tag>>, tag: Tag)
    ensures tag in Tags(Relays(channels)) <==> exists i :: 0 <= i < |channels| && tag in channels[i]
  {
    if tag in Tags(Relays(channels)) {
      var h :| 0 <= h < |channels| && tag in Relays(channels)[h].todo;
      assert tag in channels[h];
    }
    if exists i :: 0 <= i < |channels| && tag in channels[i] {
      var i :| 0 <= i < |channels| && tag in channels[i];
      assert tag in Relays(channels)[i].todo;
    }
  }

  lemma StageTagsFront(first: seq<Handler>, rest: seq<seq<Handler>>, tag: Tag)
    ensures tag in StageTags([first] + rest) <==> tag in Tags(first) || tag in StageTags(rest)
  {
    var stages := [first] + rest;
    if tag in StageTags(stages) {
      var i :| 0 <= i < |stages| && tag in Tags(stages[i]);
      assert i > 0 ==> stages[i] == rest[i - 1];
    }
    if tag in Tags(first) { assert tag in Tags(stages[0]); }
    if tag in StageTags(rest) {
      var i :| 0 <= i < |rest| && tag in Tags(rest[i]);
      assert stages[i + 1] == rest[i];
    }
  }

  /** What one target adds to the tags. */
  lemma OneTargetTags(c: string, channels: seq<seq<Tag>>, rest: seq<seq<Handler>>, tag: Tag)
    ensures tag in StageTags([[Fresh([HangoutsTag(c)], true)], Relays(channels)] + rest) <==>
      tag == HangoutsTag(c) || (exists i :: 0 <= i < |channels| && tag in channels[i]) || tag in StageTags(rest)
  {
    var first := [Fresh([HangoutsTag(c)], true)];
    assert [first, Relays(channels)] + rest == [first] + ([Relays(channels)] + rest);
    StageTagsFront(first, [Relays(channels)] + rest, tag);
    StageTagsFront(Relays(channels), rest, tag);
    RelaysTags(channels, tag);
    assert HangoutsTag(c) in first[0].todo && HangoutsTag(c) in Tags(first);
  }

  lemma {:induction false} StagesForTags(targets: seq<string>, channels: string -> seq<seq<Tag>>)
    ensures AllFresh(StagesFor(targets, channels))
    ensures forall tag :: tag in StageTags(StagesFor(targets, channels)) <==>
      exists c :: c in targets && (tag == HangoutsTag(c) || exists i :: 0 <= i < |channels(c)| && tag in channels(c)[i])
  {
    if targets != [] {
      var c, rest := targets[0], StagesFor(targets[1..], channels);
      StagesForTags(targets[1..], channels);
      assert targets == [c] + targets[1..];
      forall tag ensures tag in StageTags(StagesFor(targets, channels)) <==>
        tag == HangoutsTag(c) || (exists i :: 0 <= i < |channels(c)| && tag in channels(c)[i]) || tag in StageTags(rest)
      {
        OneTargetTags(c, channels(c), rest, tag);
      }
    }
  }

  /** The message reaches each target conversation exactly once, unless the
      conversation is a previous target or muted; and each synced channel alike. */
  lemma EveryTargetOnce(targets: seq<string>, channels: string -> seq<seq<Tag>>, muted: set<Tag>, before: set<Tag>, es: seq<Event>)
    requires Legal(muted, Start(before, StagesFor(targets, channels)), es)
    requires Over(Run(muted, Start(before, StagesFor(targets, channels)), es)) && !Run(muted, Start(before, StagesFor(targets, channels)), es).failed
    ensures
      var queued := Run(muted, Start(before, StagesFor(targets, channels)), es).queued;
      && NoRepeats(queued)
      && forall tag :: tag in queued <==>
           && tag !in before && tag !in muted
           && exists c :: c in targets && (tag == HangoutsTag(c) || exists i :: 0 <= i < |channels(c)| && tag in channels(c)[i])
  {
    var stages := StagesFor(targets, channels);
    StagesForTags(targets, channels);
    QueuedExactlyOnce(muted, before, stages, es);
    assert TagsLeft(Start(before, stages)) == StageTags(stages);
  }

  // ---------------------------------------------------------------- the delivery to Hangouts

  /** The entries of a context that are set. */
  type Context = set<string>

  const NO_REPEAT := "syncroom_no_repeat"
  const IGNORE := "__ignore__"

  datatype Queued = Queued(conv: string, context: Context)

  /** The set of previous targets that all deliveries of a round share. */
  class PreviousTargets {
    var tags: set<Tag>

    /** _send_to_ho, without the await of the image: what is queued passed the
        guard, and carries the mark that it must not be relayed again. */
    method SendToHo(conv: string, original: string, context: Context, isMuted: bool, hasText: bool) returns (queued: Option<Queued>)
      modifies this
      ensures tags == old(tags) + {HangoutsTag(conv)}
      ensures queued.Some? <==> HangoutsTag(conv) !in old(tags) && !isMuted && hasText
      ensures queued.Some? ==>
        && queued.value.conv == conv && "syncroom_no_repeat" in queued.value.context
        && queued.value.context - {"syncroom_no_repeat", "__ignore__"} == (if conv == original then context else {}) - {"syncroom_no_repeat", "__ignore__"}
    {
      var tag := HangoutsTag(conv);
      if tag in tags {
        return None;
      }
      tags := tags + {tag};
      if isMuted {
        return None;
      }
      if !hasText {
        return None;
      }
      var sent := if conv == original then context else {};
      if sent == {} {
        sent := sent + {IGNORE};
      }
      sent := sent + {NO_REPEAT};
      queued := Some(Queued(conv, sent));
    }
  }

  // ---------------------------------------------------------------- outgoing messages

  datatype Message = Message(conv: string, hasImage: bool)

  function WithImage(messages: seq<Message>): seq<Message> {
    if messages == [] then []
    else WithImage(messages[..|messages| - 1]) + (if messages[|messages| - 1].hasImage then [messages[|messages| - 1]] else [])
  }

  /** Filtering keeps the messages with an image as often as they were given, and no others. */
  lemma {:induction false} WithImageSends(messages: seq<Message>)
    ensures forall m :: multiset(WithImage(messages))[m] == if m.hasImage then multiset(messages)[m] else 0
    decreases |messages|
  {
    if messages != [] {
      var before, m := messages[..|messages| - 1], messages[|messages| - 1];
      WithImageSends(before);
      assert messages == before + [m];
    }
  }

  /** Of all broadcast conversations, the round of message i leaves out exactly
      its own from the previous targets, and that only if it has no image. */
  predicate ServesOwn(messages: seq<Message>, i: nat, previous: set<Tag>)
    requires i < |messages|
  {
    forall j :: 0 <= j < |messages| ==>
      (HangoutsTag(messages[j].conv) !in previous <==> messages[j].conv == messages[i].conv && !messages[i].hasImage)
  }

  /** The tags of all broadcast conversations are known. */
  predicate Covers(targets: set<Tag>, messages: seq<Message>) {
    forall j :: 0 <= j < |messages| ==> HangoutsTag(messages[j].conv) in targets
  }

  lemma TagsDiffer(a: string, b: string)
    ensures HangoutsTag(a) == HangoutsTag(b) <==> a == b
  {
    assert HangoutsTag(a)[9..] == a && HangoutsTag(b)[9..] == b;
  }

  function PreviousFor(message: Message, targets: set<Tag>): set<Tag> {
    if message.hasImage then targets else targets - {HangoutsTag(message.conv)}
  }

  lemma OwnRound(messages: seq<Message>, i: nat, targets: set<Tag>)
    requires i < |messages| && Covers(targets, messages)
    ensures ServesOwn(messages, i, PreviousFor(messages[i], targets))
  {
    forall j | 0 <= j < |messages|
      ensures HangoutsTag(messages[j].conv) !in PreviousFor(messages[i], targets)
        <==> messages[j].conv == messages[i].conv && !messages[i].hasImage
    {
      TagsDiffer(messages[j].conv, messages[i].conv);
    }
  }

  /** _handle_sending: the rounds an outgoing message starts, each with its
      conversation and previous targets, and what is still sent directly.  A
      message that a round has queued is marked and starts no round again.
      Otherwise each broadcast conversation is served once: directly, if it has
      an image, or by its own round, and by no other round.  The parameter reached
      stands for the tags that a round adds to the set it was given. */
  method HandleSending(messages: seq<Message>, context: Context, reached: (string, set<Tag>) -> set<Tag>)
    returns (direct: seq<Message>, rounds: seq<(string, set<Tag>)>)
    ensures "syncroom_no_repeat" in context ==> direct == messages && rounds == []
    ensures "syncroom_no_repeat" !in context ==>
      && direct == WithImage(messages) && |rounds| == |messages|
      && (forall m :: multiset(direct)[m] == if m.hasImage then multiset(messages)[m] else 0)
      && forall i :: 0 <= i < |messages| ==> rounds[i].0 == messages[i].conv && ServesOwn(messages, i, rounds[i].1)
  {
    if NO_REPEAT in context {
      return messages, [];
    }
    var targets := set m | m in messages :: HangoutsTag(m.conv);
    direct, rounds := [], [];
    for i := 0 to |messages|
      invariant RoundsFit(messages, rounds, i) && direct == WithImage(messages[..i]) && Covers(targets, messages)
    {
      var message := messages[i];
      assert messages[..i + 1][..i] == messages[..i];
      OwnRound(messages, i, targets);
      RoundsGrow(messages, rounds, i, (message.conv, PreviousFor(message, targets)));
      rounds := rounds + [(message.conv, PreviousFor(message, targets))];
      if message.hasImage {
        direct := direct + [message];
        targets := targets + reached(message.conv, targets);
      }
    }
    assert messages[..|messages|] == messages;
    WithImageSends(messages);
  }

  /** The first rounds belong to the first messages, and each serves its own. */
  predicate RoundsFit(messages: seq<Message>, rounds: seq<(string, set<Tag>)>, n: nat) {
    && |rounds| == n <= |messages|
    && forall k :: 0 <= k < n ==> rounds[k].0 == messages[k].conv && ServesOwn(messages, k, rounds[k].1)
  }

  lemma RoundsGrow(messages: seq<Message>, rounds: seq<(string, set<Tag>)>, n: nat, round: (string, set<Tag>))
    requires n < |messages| && RoundsFit(messages, rounds, n) && round.0 == messages[n].conv && ServesOwn(messages, n, round.1)
    ensures RoundsFit(messages, rounds + [round], n + 1)
  {
  }

  /** Broadcast conversations are served once: if the rounds that HandleSending
      starts run to their end without a failed handler, the queues of round i get
      exactly the message to its own conversation, once, unless it went out
      directly with its image or the conversation is muted. */
  lemma BroadcastsAreServedOnce(messages: seq<Message>, direct: seq<Message>, i: nat, j: nat, previous: set<Tag>, targets: seq<string>,
                                channels: string -> seq<seq<Tag>>, muted: set<Tag>, es: seq<Event>)
    requires i < |messages| && j < |messages| && ServesOwn(messages, i, previous) && messages[i].conv in targets
    requires forall m :: multiset(direct)[m] == if m.hasImage then multiset(messages)[m] else 0
    requires Legal(muted, Start(previous, StagesFor(targets, channels)), es)
    requires Over(Run(muted, Start(previous, StagesFor(targets, channels)), es))
    requires !Run(muted, Start(previous, StagesFor(targets, channels)), es).failed
    ensures
      var queued := Run(muted, Start(previous, StagesFor(targets, channels)), es).queued;
      && NoRepeats(queued)
      && (HangoutsTag(messages[j].conv) in queued <==>
            messages[j].conv == messages[i].conv && !messages[i].hasImage && HangoutsTag(messages[j].conv) !in muted)
      && (HangoutsTag(messages[i].conv) !in muted ==> (HangoutsTag(messages[i].conv) in queued <==> messages[i] !in direct))
  {
    EveryTargetOnce(targets, channels, muted, previous, es);
    var tag := HangoutsTag(messages[j].conv);
    assert HangoutsTag(messages[j].conv) !in previous <==> messages[j].conv == messages[i].conv && !messages[i].hasImage;
    assert HangoutsTag(messages[i].conv) !in previous <==> !messages[i].hasImage;
    assert messages[i] in multiset(messages) && (messages[i] in direct <==> messages[i] in multiset(direct));
  }
}
