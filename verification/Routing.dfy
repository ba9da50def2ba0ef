/**
 Which conversations a message reaches: room sync and forwarding both answer
 for a conversation, and each asks the sync handler again for its own targets,
 naming itself as the caller so that it is not asked a second time in a row.

 The handlers recurse without a bound of their own.  They are modelled with and
 without a limit of the interpreter: without one, where a rank on pairs of a
 provider and a conversation shows that the recursion ends, and with one, where
 a call at the limit raises an exception that is logged and dropped.
 */
module Routing {
  import opened Wrappers

  type Conv = string

  datatype Setup = Setup(
    roomsLoaded: bool,
    forwardingLoaded: bool,
    syncingEnabled: bool,
    rooms: seq<seq<Conv>>,
    forwards: map<Conv, seq<Conv>>,
    defaultForwards: seq<Conv>)

  /** The two providers; a call also names the one it comes from. */
  datatype Via = Room | Forward

  /** The suboption forward_to of a conversation, with its top level fallback. */
  function ForwardsOf(s: Setup, c: Conv): seq<Conv> {
    if c in s.forwards then s.forwards[c] else s.defaultForwards
  }

  /** One hop: to the other members of the rooms of c, or along its forwards. */
  predicate Hop(s: Setup, via: Via, c: Conv, d: Conv) {
    match via
    case Room => s.roomsLoaded && s.syncingEnabled && d != c && exists i :: 0 <= i < |s.rooms| && c in s.rooms[i] && d in s.rooms[i]
    case Forward => s.forwardingLoaded && d in ForwardsOf(s, c)
  }

  function Other(via: Via): Via {
    if via == Room then Forward else Room
  }

  /** A route alternates room hops and forward hops; via is its first hop. */
  predicate IsRoute(s: Setup, via: Via, route: seq<Conv>)
    decreases |route|
  {
    |route| >= 1 &&
    (|route| > 1 ==> Hop(s, via, route[0], route[1]) && IsRoute(s, Other(via), route[1..]))
  }

  /** One step in terms of the setup: along a room that both conversations
      share, or along the forwards of a conversation, which are those that apply
      to all where it has none of its own. */
  ghost predicate Linked(s: Setup, byRoom: bool, c: Conv, d: Conv) {
    if byRoom then s.roomsLoaded && s.syncingEnabled && d != c && exists i :: 0 <= i < |s.rooms| && c in s.rooms[i] && d in s.rooms[i]
    else s.forwardingLoaded && if c in s.forwards then d in s.forwards[c] else d in s.defaultForwards
  }

  /** The steps are by room and by forward in turns. */
  ghost predicate Alternates(s: Setup, roomFirst: bool, route: seq<Conv>) {
    forall k :: 0 <= k < |route| - 1 ==> Linked(s, (k % 2 == 0) == roomFirst, route[k], route[k + 1])
  }

  lemma {:induction false} RoutesAlternate(s: Setup, via: Via, route: seq<Conv>)
    ensures IsRoute(s, via, route) <==> route != [] && Alternates(s, via == Room, route)
    decreases |route|
  {
    if |route| > 1 {
      RoutesAlternate(s, Other(via), route[1..]);
      AlternatesByHop(s, via == Room, route);
    }
  }

  lemma AlternatesByHop(s: Setup, roomFirst: bool, route: seq<Conv>)
    requires |route| > 1
    ensures Alternates(s, roomFirst, route) <==> Linked(s, roomFirst, route[0], route[1]) && Alternates(s, !roomFirst, route[1..])
  {
    var rest := route[1..];
    forall k | 0 <= k < |rest| - 1
      ensures Linked(s, (k % 2 == 0) == !roomFirst, rest[k], rest[k + 1]) <==> Linked(s, ((k + 1) % 2 == 0) == roomFirst, route[k + 1], route[k + 2])
    {
    }
    if Alternates(s, roomFirst, route) {
      assert Linked(s, (0 % 2 == 0) == roomFirst, route[0], route[1]);
      forall k | 0 <= k < |rest| - 1 ensures Linked(s, (k % 2 == 0) == !roomFirst, rest[k], rest[k + 1]) {
        assert Linked(s, ((k + 1) % 2 == 0) == roomFirst, route[k + 1], route[k + 2]);
      }
    }
    if Linked(s, roomFirst, route[0], route[1]) && Alternates(s, !roomFirst, rest) {
      forall k | 0 <= k < |route| - 1 ensures Linked(s, (k % 2 == 0) == roomFirst, route[k], route[k + 1]) {
        if k > 0 { assert Linked(s, ((k - 1) % 2 == 0) == !roomFirst, rest[k - 1], rest[k]); }
      }
    }
  }

  /** The number of hops that the recursion limit allows; all, if there is none. */
  predicate Allowed(limit: Option<nat>, hops: int) {
    limit.None? || hops <= limit.value
  }

  function Less(limit: Option<nat>): Option<nat>
    requires limit != Some(0)
  {
    if limit.None? then None else Some(limit.value - 1)
  }

  /** d is reached from c by a route that starts with via and stays within the limit. */
  ghost predicate Reaches(s: Setup, via: Via, c: Conv, d: Conv, limit: Option<nat>) {
    exists route :: IsRoute(s, via, route) && 2 <= |route| && Allowed(limit, |route| - 1) && route[0] == c && route[|route| - 1] == d
  }

  lemma RouteByHop(s: Setup, via: Via, c: Conv, route: seq<Conv>)
    requires route != [] && Hop(s, via, c, route[0]) && IsRoute(s, Other(via), route)
    ensures IsRoute(s, via, [c] + route) && ([c] + route)[|route|] == route[|route| - 1]
  {
    assert ([c] + route)[1..] == route;
  }

  /** Reaching unfolds at its first hop. */
  lemma ReachesByHop(s: Setup, via: Via, c: Conv, d: Conv, limit: Option<nat>)
    requires limit != Some(0)
    ensures Reaches(s, via, c, d, limit) <==>
      Hop(s, via, c, d) || exists t :: Hop(s, via, c, t) && Reaches(s, Other(via), t, d, Less(limit))
  {
    if Reaches(s, via, c, d, limit) {
      var route :| IsRoute(s, via, route) && 2 <= |route| && Allowed(limit, |route| - 1) && route[0] == c && route[|route| - 1] == d;
      if |route| > 2 {
        assert IsRoute(s, Other(via), route[1..]) && route[1..][|route| - 2] == d;
      }
    }
    if Hop(s, via, c, d) {
      RouteByHop(s, via, c, [d]);
    }
    if exists t :: Hop(s, via, c, t) && Reaches(s, Other(via), t, d, Less(limit)) {
      ReachesFurther(s, via, c, d, limit);
    }
  }

  lemma ReachesFurther(s: Setup, via: Via, c: Conv, d: Conv, limit: Option<nat>)
    requires limit != Some(0) && exists t :: Hop(s, via, c, t) && Reaches(s, Other(via), t, d, Less(limit))
    ensures Reaches(s, via, c, d, limit)
  {
    var t :| Hop(s, via, c, t) && Reaches(s, Other(via), t, d, Less(limit));
    var rest :| IsRoute(s, Other(via), rest) && 2 <= |rest| && Allowed(Less(limit), |rest| - 1) && rest[0] == t && rest[|rest| - 1] == d;
    RouteByHop(s, via, c, rest);
  }

  /** The targets a provider owes for c: everything reached with its hop first. */
  ghost predicate Owes(s: Setup, via: Via, c: Conv, d: Conv, limit: Option<nat>) {
    d != c && Reaches(s, via, c, d, limit)
  }

  /** What get_synced_conversations owes to a caller. */
  ghost predicate Synced(s: Setup, caller: Option<Via>, c: Conv, d: Conv, limit: Option<nat>) {
    exists via: Via :: caller != Some(via) && Owes(s, via, c, d, limit)
  }

  /** What is owed without a limit, in terms of the setup. */
  lemma SyncedInWords(s: Setup, caller: Option<Via>, c: Conv, d: Conv)
    ensures Synced(s, caller, c, d, None) <==>
      d != c && exists via: Via, route :: caller != Some(via) && |route| >= 2 && route[0] == c && route[|route| - 1] == d && Alternates(s, via == Room, route)
  {
    forall via: Via, route ensures IsRoute(s, via, route) <==> route != [] && Alternates(s, via == Room, route) {
      RoutesAlternate(s, via, route);
    }
    if Synced(s, caller, c, d, None) {
      var via: Via :| caller != Some(via) && Owes(s, via, c, d, None);
      var route :| IsRoute(s, via, route) && 2 <= |route| && route[0] == c && route[|route| - 1] == d;
      assert Alternates(s, via == Room, route);
    }
    if d != c && exists via: Via, route :: caller != Some(via) && |route| >= 2 && route[0] == c && route[|route| - 1] == d && Alternates(s, via == Room, route) {
      var via: Via, route :| caller != Some(via) && |route| >= 2 && route[0] == c && route[|route| - 1] == d && Alternates(s, via == Room, route);
      assert IsRoute(s, via, route) && Owes(s, via, c, d, None);
    }
  }

  // ---------------------------------------------------------------- the end of the recursion

  /** The provider asked for next after a number of hops. */
  function Turn(via: Via, hops: nat): Via {
    if hops % 2 == 0 then via else Other(via)
  }

  /** A route from c that starts with via asks v about x. */
  ghost predicate Asks(s: Setup, via: Via, c: Conv, v: Via, x: Conv) {
    exists route :: IsRoute(s, via, route) && route[0] == c && route[|route| - 1] == x && v == Turn(via, |route| - 1)
  }

  /** A rank on pairs that drops along every alternating hop that is reachable. */
  ghost predicate Falls(s: Setup, via: Via, c: Conv, rank: (Via, Conv) -> nat) {
    forall v, x, y :: Asks(s, via, c, v, x) && Hop(s, v, x, y) ==> rank(Other(v), y) < rank(v, x)
  }

  lemma AskedFirst(s: Setup, via: Via, c: Conv)
    ensures Asks(s, via, c, via, c)
  {
    assert IsRoute(s, via, [c]);
  }

  /** What is asked after a hop was asked before it. */
  lemma FallsOn(s: Setup, via: Via, c: Conv, d: Conv, rank: (Via, Conv) -> nat)
    requires Falls(s, via, c, rank) && Hop(s, via, c, d)
    ensures rank(Other(via), d) < rank(via, c) && Falls(s, Other(via), d, rank)
  {
    AskedFirst(s, via, c);
    forall v, x | Asks(s, Other(via), d, v, x) ensures Asks(s, via, c, v, x) {
      AskedBefore(s, via, c, d, v, x);
    }
  }

  lemma AskedBefore(s: Setup, via: Via, c: Conv, d: Conv, v: Via, x: Conv)
    requires Hop(s, via, c, d) && Asks(s, Other(via), d, v, x)
    ensures Asks(s, via, c, v, x)
  {
    var route :| IsRoute(s, Other(via), route) && route[0] == d && route[|route| - 1] == x && v == Turn(Other(via), |route| - 1);
    RouteByHop(s, via, c, route);
    TurnsOn(via, |route|);
    var longer := [c] + route;
    assert IsRoute(s, via, longer) && longer[0] == c && longer[|longer| - 1] == x && v == Turn(via, |longer| - 1);
  }

  lemma TurnsOn(via: Via, hops: nat)
    requires hops > 0
    ensures Turn(via, hops) == Turn(Other(via), hops - 1)
  {
  }

  /** The recursion for a caller ends, as the rank shows. */
  ghost predicate Ends(s: Setup, caller: Option<Via>, c: Conv, rank: (Via, Conv) -> nat) {
    forall via: Via :: caller != Some(via) ==> Falls(s, via, c, rank)
  }

  /** What gets less with every nested call. */
  ghost function Depth(caller: Option<Via>, c: Conv, limit: Option<nat>, rank: (Via, Conv) -> nat): nat {
    match limit
    case Some(n) => n
    case None =>
      match caller
      case Some(via) => rank(Other(via), c)
      case None => if rank(Room, c) < rank(Forward, c) then rank(Forward, c) else rank(Room, c)
  }

  /** Some route has as many hops as the limit allows, so a call at its end is one too deep. */
  ghost predicate Exhausts(s: Setup, via: Via, c: Conv, limit: Option<nat>) {
    limit.Some? && exists route :: IsRoute(s, via, route) && route[0] == c && |route| - 1 == limit.value
  }

  /** A call for this caller hits the limit. */
  ghost predicate Hits(s: Setup, caller: Option<Via>, c: Conv, limit: Option<nat>) {
    exists via: Via :: caller != Some(via) && Exhausts(s, via, c, limit)
  }

  lemma ExhaustsByHop(s: Setup, via: Via, c: Conv, limit: Option<nat>)
    requires limit != Some(0)
    ensures Exhausts(s, via, c, limit) <==> exists t :: Hop(s, via, c, t) && Exhausts(s, Other(via), t, Less(limit))
  {
    if Exhausts(s, via, c, limit) {
      var route :| IsRoute(s, via, route) && route[0] == c && |route| - 1 == limit.value;
      assert IsRoute(s, Other(via), route[1..]) && Exhausts(s, Other(via), route[1], Less(limit));
    }
    if exists t :: Hop(s, via, c, t) && Exhausts(s, Other(via), t, Less(limit)) {
      var t :| Hop(s, via, c, t) && Exhausts(s, Other(via), t, Less(limit));
      var rest :| IsRoute(s, Other(via), rest) && rest[0] == t && |rest| - 1 == limit.value - 1;
      RouteByHop(s, via, c, rest);
    }
  }

  // ---------------------------------------------------------------- the providers

  predicate Distinct(ids: seq<Conv>) {
    forall i, j :: 0 <= i < j < |ids| ==> ids[i] != ids[j]
  }

  /** list(set): every element once, in some order. */
  method Listed(ids: set<Conv>) returns (list: seq<Conv>)
    ensures Distinct(list)
    ensures forall x :: x in list <==> x in ids
  {
    list := [];
    var todo := ids;
    while todo != {}
      invariant todo <= ids && Distinct(list)
      invariant forall x :: x in list <==> x in ids - todo
    {
      var x :| x in todo;
      assert x !in list;
      list := list + [x];
      todo := todo - {x};
    }
  }

  /** The targets found so far when the targets in seen were followed, and
      whether a nested call hit the limit. */
  ghost predicate Followed(s: Setup, via: Via, limit: Option<nat>, hops: set<Conv>, seen: set<Conv>, targets: set<Conv>, deep: bool)
    requires limit != Some(0)
  {
    && (forall d :: d in targets <==> d in hops || exists t :: t in seen && Synced(s, Some(via), t, d, Less(limit)))
    && (deep <==> exists t :: t in seen && Exhausts(s, Other(via), t, Less(limit)))
  }

  lemma FollowedAll(s: Setup, via: Via, c: Conv, limit: Option<nat>, hops: set<Conv>, targets: set<Conv>, deep: bool)
    requires limit != Some(0) && Followed(s, via, limit, hops, hops, targets, deep)
    requires forall d :: d in hops <==> Hop(s, via, c, d)
    ensures forall d :: d in targets - {c} <==> Owes(s, via, c, d, limit)
    ensures deep <==> Exhausts(s, via, c, limit)
  {
    ExhaustsByHop(s, via, c, limit);
    forall d ensures d in targets <==> Reaches(s, via, c, d, limit) {
      FollowedOne(s, via, c, d, limit, hops);
    }
  }

  /** A nested call of a provider gets what the other one owes. */
  lemma SyncedByOther(s: Setup, via: Via, t: Conv, d: Conv, limit: Option<nat>)
    ensures Synced(s, Some(via), t, d, limit) <==> Owes(s, Other(via), t, d, limit)
  {
    if Synced(s, Some(via), t, d, limit) {
      var other: Via :| Some(via) != Some(other) && Owes(s, other, t, d, limit);
      assert other == Other(via);
    }
    assert Some(via) != Some(Other(via));
  }

  lemma FollowedOne(s: Setup, via: Via, c: Conv, d: Conv, limit: Option<nat>, hops: set<Conv>)
    requires limit != Some(0) && forall t :: t in hops <==> Hop(s, via, c, t)
    ensures Reaches(s, via, c, d, limit) <==> d in hops || exists t :: t in hops && Synced(s, Some(via), t, d, Less(limit))
  {
    ReachesByHop(s, via, c, d, limit);
    forall t ensures Synced(s, Some(via), t, d, Less(limit)) <==> Owes(s, Other(via), t, d, Less(limit)) {
      SyncedByOther(s, via, t, d, Less(limit));
    }
  }

  /** One nested call, on behalf of a provider. */
  method Follow(s: Setup, via: Via, source: Conv, target: Conv, limit: Option<nat>, ghost rank: (Via, Conv) -> nat)
    returns (synced: seq<Conv>, deep: bool)
    requires limit != Some(0) && Hop(s, via, source, target)
    requires limit.None? ==> Falls(s, via, source, rank)
    ensures forall d :: d in synced <==> Synced(s, Some(via), target, d, Less(limit))
    ensures deep <==> Exhausts(s, Other(via), target, Less(limit))
    decreases if limit.None? then rank(via, source) else limit.value, 0
  {
    if limit.None? { FallsOn(s, via, source, target, rank); }
    synced, deep := GetSyncedConversations(s, target, Some(via), false, Less(limit), rank);
    assert deep ==> Exhausts(s, Other(via), target, Less(limit)) by {
      if deep {
        var other: Via :| Some(via) != Some(other) && Exhausts(s, other, target, Less(limit));
        assert other == Other(via);
      }
    }
  }

  /** What a call of a provider returns, and whether it or a nested call hit the limit. */
  ghost predicate Answers(s: Setup, via: Via, source: Conv, caller: Option<Via>, limit: Option<nat>, result: Option<seq<Conv>>, deep: bool) {
    && (limit == Some(0) <==> result.None?)
    && (limit == Some(0) ==> deep)
    && (limit != Some(0) ==> forall d :: d in result.value <==> caller != Some(via) && Owes(s, via, source, d, limit))
    && (limit != Some(0) ==> (deep <==> caller != Some(via) && Exhausts(s, via, source, limit)))
  }

  /** _get_targets of the room sync; None when the recursion limit is hit. */
  method RoomTargets(s: Setup, source: Conv, caller: Option<Via>, limit: Option<nat>, ghost rank: (Via, Conv) -> nat)
    returns (result: Option<seq<Conv>>, deep: bool)
    requires s.roomsLoaded && (limit.None? ==> Ends(s, caller, source, rank))
    ensures Answers(s, Room, source, caller, limit, result, deep)
    decreases Depth(caller, source, limit, rank), 1
  {
    if limit == Some(0) {
      return None, true;
    }
    if caller == Some(Room) {
      return Some([]), false;
    }
    if !s.syncingEnabled || s.rooms == [] {
      NoHops(s, Room, source, limit);
      return Some([]), false;
    }
    var raw: set<Conv> := {};
    for i := 0 to |s.rooms|
      invariant forall d :: d in raw <==> exists j :: 0 <= j < i && source in s.rooms[j] && d in s.rooms[j]
    {
      if source in s.rooms[i] {
        raw := raw + set d | d in s.rooms[i];
      }
    }
    raw := raw - {source};
    assert forall d :: d in raw <==> Hop(s, Room, source, d);

    var targets := raw;
    var todo := raw;
    deep := false;
    while todo != {}
      invariant todo <= raw
      invariant Followed(s, Room, limit, raw, raw - todo, targets, deep)
    {
      var target :| target in todo;
      var synced, deeper := Follow(s, Room, source, target, limit, rank);
      targets := targets + set d | d in synced;
      deep := deep || deeper;
      assert raw - (todo - {target}) == (raw - todo) + {target};
      todo := todo - {target};
    }
    assert raw - todo == raw;
    FollowedAll(s, Room, source, limit, raw, targets, deep);
    targets := targets - {source};
    var list := Listed(targets);
    result := Some(list);
  }

  /** _get_targets of the forwarding plugin. */
  method ForwardTargets(s: Setup, source: Conv, caller: Option<Via>, limit: Option<nat>, ghost rank: (Via, Conv) -> nat)
    returns (result: Option<seq<Conv>>, deep: bool)
    requires s.forwardingLoaded && (limit.None? ==> Ends(s, caller, source, rank))
    ensures Answers(s, Forward, source, caller, limit, result, deep)
    decreases Depth(caller, source, limit, rank), 1
  {
    if limit == Some(0) {
      return None, true;
    }
    if caller == Some(Forward) {
      return Some([]), false;
    }
    var raw := ForwardsOf(s, source);
    ghost var hops := set d | d in raw;
    var targets := set d | d in raw;
    deep := false;
    ghost var seen: set<Conv> := {};
    for i := 0 to |raw|
      invariant seen == set j | 0 <= j < i :: raw[j]
      invariant Followed(s, Forward, limit, hops, seen, targets, deep)
    {
      var synced, deeper := Follow(s, Forward, source, raw[i], limit, rank);
      targets := targets + set d | d in synced;
      deep := deep || deeper;
      seen := seen + {raw[i]};
    }
    assert seen == hops;
    FollowedAll(s, Forward, source, limit, hops, targets, deep);
    targets := targets - {source};
    var list := Listed(targets);
    result := Some(list);
  }

  /** The results of both providers; a failed one is left out. */
  method HandlerResults(s: Setup, conv: Conv, caller: Option<Via>, limit: Option<nat>, ghost rank: (Via, Conv) -> nat)
    returns (flat: set<Conv>, deep: bool)
    requires limit.None? ==> Ends(s, caller, conv, rank)
    ensures forall d :: d in flat <==> Synced(s, caller, conv, d, limit)
    ensures deep <==> (s.roomsLoaded || s.forwardingLoaded) && Hits(s, caller, conv, limit)
    decreases Depth(caller, conv, limit, rank), 2
  {
    flat, deep := {}, false;
    if s.roomsLoaded {
      var result, deeper := RoomTargets(s, conv, caller, limit, rank);
      deep := deeper;
      if result.Some? { flat := flat + set d | d in result.value; }
    }
    if s.forwardingLoaded {
      var result, deeper := ForwardTargets(s, conv, caller, limit, rank);
      deep := deep || deeper;
      if result.Some? { flat := flat + set d | d in result.value; }
    }
    SyncedByProvider(s, caller, conv, limit);
    HitsByProvider(s, caller, conv, limit);
  }

  /** get_synced_conversations, flat and with unique ids: exactly the
      conversations on alternating routes, each once, without the conversation
      itself, which comes first if it was asked for.  Without a limit it needs a
      rank that shows the end of the recursion; with one, routes up to the limit
      count, and it is hit exactly if some route has that many hops. */
  method GetSyncedConversations(s: Setup, conv: Conv, caller: Option<Via>, includeSource: bool, limit: Option<nat>, ghost rank: (Via, Conv) -> nat)
    returns (ids: seq<Conv>, deep: bool)
    requires limit.None? ==> Ends(s, caller, conv, rank)
    ensures Distinct(ids)
    ensures includeSource ==> ids != [] && ids[0] == conv
    ensures forall d :: d in ids <==> (includeSource && d == conv) || Synced(s, caller, conv, d, limit)
    ensures deep <==> (s.roomsLoaded || s.forwardingLoaded) && Hits(s, caller, conv, limit)
    decreases Depth(caller, conv, limit, rank), 3
  {
    var flat;
    flat, deep := HandlerResults(s, conv, caller, limit, rank);
    flat := flat - {conv};
    ids := Listed(flat);
    if includeSource {
      ids := [conv] + ids;
    }
  }

  lemma NoHops(s: Setup, via: Via, c: Conv, limit: Option<nat>)
    requires limit != Some(0) && forall d :: !Hop(s, via, c, d)
    ensures !Exhausts(s, via, c, limit) && forall d :: !Reaches(s, via, c, d, limit)
  {
    ExhaustsByHop(s, via, c, limit);
    forall d ensures !Reaches(s, via, c, d, limit) { ReachesByHop(s, via, c, d, limit); }
  }

  /** No route starts at the limit, or with a provider that is not loaded. */
  lemma SyncedByProvider(s: Setup, caller: Option<Via>, c: Conv, limit: Option<nat>)
    ensures forall d :: Synced(s, caller, c, d, limit) <==>
      limit != Some(0) && ((s.roomsLoaded && caller != Some(Room) && Owes(s, Room, c, d, limit))
                        || (s.forwardingLoaded && caller != Some(Forward) && Owes(s, Forward, c, d, limit)))
  {
    forall d, via: Via | Owes(s, via, c, d, limit) ensures limit != Some(0) && if via == Room then s.roomsLoaded else s.forwardingLoaded {
      if limit != Some(0) { ReachesByHop(s, via, c, d, limit); }
    }
    forall d | limit != Some(0) && ((s.roomsLoaded && caller != Some(Room) && Owes(s, Room, c, d, limit))
                                 || (s.forwardingLoaded && caller != Some(Forward) && Owes(s, Forward, c, d, limit)))
      ensures Synced(s, caller, c, d, limit)
    {
      var via := if s.roomsLoaded && caller != Some(Room) && Owes(s, Room, c, d, limit) then Room else Forward;
      assert caller != Some(via) && Owes(s, via, c, d, limit);
    }
  }

  lemma HitsByProvider(s: Setup, caller: Option<Via>, c: Conv, limit: Option<nat>)
    ensures limit == Some(0) ==> Hits(s, caller, c, limit)
    ensures limit != Some(0) ==> (Hits(s, caller, c, limit) <==>
      (s.roomsLoaded && caller != Some(Room) && Exhausts(s, Room, c, limit))
      || (s.forwardingLoaded && caller != Some(Forward) && Exhausts(s, Forward, c, limit)))
  {
    if limit == Some(0) {
      var via := if caller == Some(Room) then Forward else Room;
      assert IsRoute(s, via, [c]) && caller != Some(via) && Exhausts(s, via, c, limit);
    } else {
      ExhaustsByHop(s, Room, c, limit);
      ExhaustsByHop(s, Forward, c, limit);
      forall via: Via | Exhausts(s, via, c, limit) ensures via == Room || via == Forward {
        match via { case Room => case Forward => }
      }
    }
  }

  // ---------------------------------------------------------------- when the recursion ends

  /** No route from c that starts with via has more hops. */
  ghost predicate AtMost(s: Setup, via: Via, c: Conv, n: nat) {
    forall route :: IsRoute(s, via, route) && route[0] == c ==> |route| - 1 <= n
  }

  ghost predicate Bounded(s: Setup, via: Via, c: Conv) {
    exists n: nat :: AtMost(s, via, c, n)
  }

  /** The hops of the longest route among those with at most n. */
  ghost function Longest(s: Setup, via: Via, c: Conv, n: nat): (m: nat)
    ensures m <= n
    ensures forall route :: IsRoute(s, via, route) && route[0] == c && |route| - 1 <= n ==> |route| - 1 <= m
    ensures exists route :: IsRoute(s, via, route) && route[0] == c && |route| - 1 == m
  {
    if n == 0 then (assert IsRoute(s, via, [c]); 0)
    else if exists route :: IsRoute(s, via, route) && route[0] == c && |route| - 1 == n then n
    else Longest(s, via, c, n - 1)
  }

  /** A route can be continued by a route of what it asks. */
  lemma {:induction false} RoutesCompose(s: Setup, via: Via, first: seq<Conv>, rest: seq<Conv>)
    requires IsRoute(s, via, first) && IsRoute(s, Turn(via, |first| - 1), rest) && first[|first| - 1] == rest[0]
    ensures IsRoute(s, via, first + rest[1..])
    decreases |first|
  {
    if |first| == 1 {
      assert first + rest[1..] == rest;
    } else {
      var later := first[1..] + rest[1..];
      TurnsOn(via, |first| - 1);
      RoutesCompose(s, Other(via), first[1..], rest);
      assert later[0] == first[1];
      RouteByHop(s, via, first[0], later);
      assert [first[0]] + later == first + rest[1..];
    }
  }

  lemma AskedAreBounded(s: Setup, via: Via, c: Conv, n: nat, v: Via, x: Conv)
    requires AtMost(s, via, c, n) && Asks(s, via, c, v, x)
    ensures AtMost(s, v, x, n)
  {
    var first :| IsRoute(s, via, first) && first[0] == c && first[|first| - 1] == x && v == Turn(via, |first| - 1);
    forall rest | IsRoute(s, v, rest) && rest[0] == x ensures |rest| - 1 <= n {
      RoutesCompose(s, via, first, rest);
      assert (first + rest[1..])[0] == c;
    }
  }

  /** The longest route is a rank. */
  lemma LongestFalls(s: Setup, via: Via, c: Conv, n: nat)
    requires AtMost(s, via, c, n)
    ensures Falls(s, via, c, (v, x) => Longest(s, v, x, n))
  {
    forall v, x, y | Asks(s, via, c, v, x) && Hop(s, v, x, y) ensures Longest(s, Other(v), y, n) < Longest(s, v, x, n) {
      AskedAreBounded(s, via, c, n, v, x);
      LongestDrops(s, v, x, y, n);
    }
  }

  lemma LongestDrops(s: Setup, v: Via, x: Conv, y: Conv, n: nat)
    requires AtMost(s, v, x, n) && Hop(s, v, x, y)
    ensures Longest(s, Other(v), y, n) < Longest(s, v, x, n)
  {
    var m := Longest(s, Other(v), y, n);
    var route :| IsRoute(s, Other(v), route) && route[0] == y && |route| - 1 == m;
    RouteByHop(s, v, x, route);
    assert IsRoute(s, v, [x] + route) && ([x] + route)[0] == x;
  }

  /** With a rank no route has more hops than the rank of its start. */
  lemma {:induction false} RankBoundsRoutes(s: Setup, via: Via, route: seq<Conv>, rank: (Via, Conv) -> nat)
    requires IsRoute(s, via, route) && Falls(s, via, route[0], rank)
    ensures |route| - 1 <= rank(via, route[0])
    decreases |route|
  {
    if |route| > 1 {
      FallsOn(s, via, route[0], route[1], rank);
      RankBoundsRoutes(s, Other(via), route[1..], rank);
    }
  }

  /** All routes of the providers that are asked for this caller are bounded. */
  ghost predicate AllBounded(s: Setup, caller: Option<Via>, c: Conv) {
    forall via: Via :: caller != Some(via) ==> Bounded(s, via, c)
  }

  lemma BoundedTogether(s: Setup, caller: Option<Via>, c: Conv) returns (n: nat)
    requires AllBounded(s, caller, c)
    ensures forall via: Via :: caller != Some(via) ==> AtMost(s, via, c, n)
  {
    var m: nat :| caller != Some(Room) ==> AtMost(s, Room, c, m);
    var k: nat :| caller != Some(Forward) ==> AtMost(s, Forward, c, k);
    n := m + k;
    forall via: Via | caller != Some(via) ensures AtMost(s, via, c, n) {
      match via { case Room => case Forward => }
    }
  }

  /** The routes for a caller are bounded exactly if there is a rank on pairs
      that drops along every hop that is reachable. */
  lemma RecursionEndsIff(s: Setup, caller: Option<Via>, c: Conv)
    ensures AllBounded(s, caller, c) <==> exists rank :: Ends(s, caller, c, rank)
  {
    if AllBounded(s, caller, c) {
      var n := BoundedTogether(s, caller, c);
      var rank: (Via, Conv) -> nat := (v, x) => Longest(s, v, x, n);
      forall via: Via | caller != Some(via) ensures Falls(s, via, c, rank) {
        LongestFalls(s, via, c, n);
      }
      assert Ends(s, caller, c, rank);
    }
    if exists rank :: Ends(s, caller, c, rank) {
      var rank :| Ends(s, caller, c, rank);
      forall via: Via | caller != Some(via) ensures AtMost(s, via, c, rank(via, c)) {
        forall route | IsRoute(s, via, route) && route[0] == c ensures |route| - 1 <= rank(via, c) {
          RankBoundsRoutes(s, via, route, rank);
        }
      }
    }
  }

  lemma {:induction false} PrefixIsRoute(s: Setup, via: Via, route: seq<Conv>, n: nat)
    requires IsRoute(s, via, route) && 1 <= n <= |route|
    ensures IsRoute(s, via, route[..n])
    decreases n
  {
    if n > 1 {
      assert route[..n][1..] == route[1..][..n - 1];
      PrefixIsRoute(s, Other(via), route[1..], n - 1);
    }
  }

  lemma UnboundedExhausts(s: Setup, via: Via, c: Conv, n: nat)
    requires !AtMost(s, via, c, n)
    ensures Exhausts(s, via, c, Some(n))
  {
    var route :| IsRoute(s, via, route) && route[0] == c && |route| - 1 > n;
    PrefixIsRoute(s, via, route, n + 1);
  }

  /** The recursion for a caller hits every limit exactly if its routes are not bounded. */
  lemma EveryLimitIsHitIff(s: Setup, caller: Option<Via>, c: Conv)
    ensures (forall n: nat :: Hits(s, caller, c, Some(n))) <==> !AllBounded(s, caller, c)
  {
    if AllBounded(s, caller, c) {
      var n := BoundedTogether(s, caller, c);
      forall via: Via | caller != Some(via) ensures !Exhausts(s, via, c, Some(n + 1)) {
        assert AtMost(s, via, c, n);
      }
      assert !Hits(s, caller, c, Some(n + 1));
    } else {
      var via: Via :| caller != Some(via) && !Bounded(s, via, c);
      forall n: nat ensures Hits(s, caller, c, Some(n)) {
        assert !AtMost(s, via, c, n);
        UnboundedExhausts(s, via, c, n);
      }
    }
  }

  /** With a rank, a limit above the ranks is not hit and changes nothing. */
  lemma LimitsAboveTheRank(s: Setup, caller: Option<Via>, c: Conv, d: Conv, limit: nat, rank: (Via, Conv) -> nat)
    requires Ends(s, caller, c, rank) && limit > Depth(caller, c, None, rank)
    ensures !Hits(s, caller, c, Some(limit))
    ensures Synced(s, caller, c, d, Some(limit)) <==> Synced(s, caller, c, d, None)
  {
    forall via: Via | caller != Some(via)
      ensures !Exhausts(s, via, c, Some(limit)) && (Owes(s, via, c, d, Some(limit)) <==> Owes(s, via, c, d, None))
    {
      assert rank(via, c) < limit by { match via { case Room => case Forward => } }
      forall route | IsRoute(s, via, route) && route[0] == c ensures |route| - 1 < limit {
        RankBoundsRoutes(s, via, route, rank);
      }
    }
  }

  /** A rank of conversations that is equal inside each room and drops along every forward. */
  ghost predicate Ranked(s: Setup, rank: Conv -> nat) {
    && (forall i, c, d :: 0 <= i < |s.rooms| && c in s.rooms[i] && d in s.rooms[i] ==> rank(c) == rank(d))
    && (forall c, d :: d in ForwardsOf(s, c) ==> rank(d) < rank(c))
  }

  /** Such a rank is enough: twice the rank, and one more before a room hop. */
  lemma ConversationRankFalls(s: Setup, rank: Conv -> nat, caller: Option<Via>, c: Conv)
    requires Ranked(s, rank)
    ensures Ends(s, caller, c, (v: Via, x: Conv) => 2 * rank(x) + if v == Room then 1 else 0)
  {
    var pairs: (Via, Conv) -> nat := (v: Via, x: Conv) => 2 * rank(x) + if v == Room then 1 else 0;
    forall v: Via, x, y | Hop(s, v, x, y) ensures pairs(Other(v), y) < pairs(v, x) {
    }
  }

  /** A forward into a room that holds its own source is never bounded. */
  lemma ForwardsBackAreUnbounded(s: Setup, c: Conv, d: Conv)
    requires Hop(s, Forward, c, d) && Hop(s, Room, d, c)
    ensures !Bounded(s, Forward, c)
  {
    forall n: nat ensures !AtMost(s, Forward, c, n) {
      var route := BackAndForth(s, c, d, n + 1);
    }
  }

  lemma {:induction false} BackAndForth(s: Setup, c: Conv, d: Conv, n: nat) returns (route: seq<Conv>)
    requires Hop(s, Forward, c, d) && Hop(s, Room, d, c)
    ensures IsRoute(s, Forward, route) && |route| == 2 * n + 1 && route[0] == c
  {
    route := [c];
    if n > 0 {
      route := BackAndForth(s, c, d, n - 1);
      RouteByHop(s, Room, d, route);
      RouteByHop(s, Forward, c, [d] + route);
      route := [c] + ([d] + route);
    }
  }
}
