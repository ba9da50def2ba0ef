/**
 The cache with timeouts: entries expire, accesses may postpone that, expired
 entries stay until somebody notices, and the content moves to memory and back.
 Clock readings, in seconds, are parameters.
 */
module TimeoutCache {
  import opened Wrappers

  /** timeout 0 stands for a deadline that accesses do not move. */
  datatype Item<V> = Item(value: V, timeout: int, deadline: real)

  type Items<V> = map<string, Item<V>>

  datatype Settings = Settings(defaultTimeout: int, increaseOnAccess: bool)

  // ---------------------------------------------------------------- single operations

  function Touched<V>(item: Item<V>, now: real): Item<V> {
    if item.timeout == 0 then item else item.(deadline := now + item.timeout as real)
  }

  predicate Expired<V>(items: Items<V>, id: string, now: real) {
    id in items && items[id].deadline < now
  }

  predicate Live<V>(items: Items<V>, id: string, now: real) {
    id in items && items[id].deadline >= now
  }

  /** get without ignore_timeout: an expired entry is dropped, a live one is
      touched or popped. */
  function AfterGet<V>(items: Items<V>, id: string, pop: bool, now: real): Items<V> {
    if id !in items then items
    else if items[id].deadline < now || pop then items - {id}
    else items[id := Touched(items[id], now)]
  }

  function Got<V>(items: Items<V>, id: string, now: real): Option<V> {
    if Live(items, id, now) then Some(items[id].value) else None
  }

  /** The entry that add stores. */
  function NewItem<V>(s: Settings, value: V, timeout: Option<int>, deadline: Option<real>, now: real): Item<V> {
    var seconds := if timeout.None? then s.defaultTimeout else timeout.value;
    Item(value, if s.increaseOnAccess then seconds else 0,
         if deadline.None? || deadline.value == 0.0 then now + seconds as real else deadline.value)
  }

  function AfterAdd<V>(s: Settings, items: Items<V>, id: string, value: V, timeout: Option<int>, deadline: Option<real>, now: real): Items<V> {
    if id in items then items else items[id := NewItem(s, value, timeout, deadline, now)]
  }

  function Cleaned<V>(items: Items<V>, now: real): Items<V> {
    map id | id in items && items[id].deadline >= now :: items[id]
  }

  /** Entries read from memory join those that are there already. */
  function Loaded<V>(s: Settings, items: Items<V>, memory: Items<V>, now: real): Items<V> {
    map id | id in items.Keys + memory.Keys ::
      if id in items then items[id]
      else NewItem(s, memory[id].value, Some(memory[id].timeout), Some(memory[id].deadline), now)
  }

  /** What memory holds after a dump. */
  function Dumped<V>(items: Items<V>, memory: Items<V>, onlyOnNewItems: bool): Items<V> {
    if onlyOnNewItems && items.Keys <= memory.Keys then memory else items
  }

  /** Without increase on access no entry moves its deadline. */
  predicate Kept<V>(s: Settings, items: Items<V>) {
    !s.increaseOnAccess ==> forall id :: id in items ==> items[id].timeout == 0
  }

  // ---------------------------------------------------------------- the object

  class Cache<V(==)> {
    const settings: Settings
    var items: Items<V>

    ghost predicate Valid()
      reads this
    {
      Kept(settings, items)
    }

    constructor (settings: Settings)
      ensures Valid() && this.settings == settings && items == map[]
    {
      this.settings := settings;
      items := map[];
    }

    method Get(id: string, pop: bool, ignoreTimeout: bool, now: real) returns (r: Option<V>)
      requires Valid()
      modifies this
      ensures Valid()
      ensures !ignoreTimeout ==> r == Got(old(items), id, now) && items == AfterGet(old(items), id, pop, now)
      ensures r.Some? <==> id in old(items) && (ignoreTimeout || old(items)[id].deadline >= now)
      ensures items - {id} == old(items) - {id} && (id in items <==> r.Some? && !pop)
      ensures id in items ==> items[id] == old(items)[id].(deadline :=
        if old(items)[id].timeout == 0 then old(items)[id].deadline else now + old(items)[id].timeout as real)
      ensures r.Some? ==> r.value == old(items)[id].value
      ensures ignoreTimeout && id in old(items) ==>
        items == if pop then old(items) - {id} else old(items)[id := Touched(old(items)[id], now)]
      ensures id !in old(items) ==> items == old(items)
    {
      if id !in items {
        return None;
      }
      var item := items[id];
      if item.deadline < now {
        if !ignoreTimeout {
          items := items - {id};
          return None;
        }
      }
      if pop {
        items := items - {id};
      } else {
        items := items[id := Touched(item, now)];
      }
      r := Some(item.value);
    }

    method Add(id: string, value: V, timeout: Option<int>, deadline: Option<real>, now: real) returns (added: bool)
      requires Valid()
      modifies this
      ensures Valid()
      ensures added <==> id !in old(items)
      ensures items - {id} == old(items) - {id} && id in items
      ensures var seconds := if timeout.Some? then timeout.value else settings.defaultTimeout;
        items[id] == if !added then old(items)[id]
          else Item(value, if settings.increaseOnAccess then seconds else 0,
                    if deadline.Some? && deadline.value != 0.0 then deadline.value else now + seconds as real)
      ensures items == AfterAdd(settings, old(items), id, value, timeout, deadline, now)
    {
      if id in items {
        return false;
      }
      var seconds := if timeout.None? then settings.defaultTimeout else timeout.value;
      var end := if deadline.None? || deadline.value == 0.0 then now + seconds as real else deadline.value;
      if !settings.increaseOnAccess {
        seconds := 0;
      }
      items := items[id := Item(value, seconds, end)];
      added := true;
    }

    /** One run of the periodic cleanup. */
    method Cleanup(now: real)
      requires Valid()
      modifies this
      ensures Valid()
      ensures items == Cleaned(old(items), now)
      ensures forall id :: id in items <==> id in old(items) && old(items)[id].deadline >= now
      ensures forall id :: id in items ==> items[id] == old(items)[id]
    {
      var copy := items;
      var todo := copy.Keys;
      while todo != {}
        invariant todo <= copy.Keys
        invariant items == map id | id in copy && (id in todo || copy[id].deadline >= now) :: copy[id]
      {
        var id :| id in todo;
        if copy[id].deadline < now {
          items := items - {id};
        }
        todo := todo - {id};
      }
    }

    /** _load_entries */
    method Load(memory: Items<V>, now: real)
      requires Valid()
      modifies this
      ensures Valid()
      ensures items == Loaded(settings, old(items), memory, now)
      ensures items.Keys == old(items).Keys + memory.Keys
      ensures forall id :: id in items ==> items[id] == if id in old(items) then old(items)[id]
        else Item(memory[id].value, if settings.increaseOnAccess then memory[id].timeout else 0,
                  if memory[id].deadline != 0.0 then memory[id].deadline else now + memory[id].timeout as real)
    {
      ghost var before := items;
      var todo := memory.Keys;
      while todo != {}
        invariant todo <= memory.Keys && Valid()
        invariant items == Loaded(settings, before, memory - todo, now)
      {
        var id :| id in todo;
        var item := memory[id];
        var added := Add(id, item.value, Some(item.timeout), Some(item.deadline), now);
        todo := todo - {id};
      }
      assert memory - {} == memory;
    }

    method Dump(memory: Items<V>, onlyOnNewItems: bool) returns (r: Items<V>)
      ensures r == Dumped(items, memory, onlyOnNewItems)
      ensures r == if onlyOnNewItems && forall id :: id in items ==> id in memory then memory else items
    {
      var dump := items;
      if memory.Keys == dump.Keys {
        if onlyOnNewItems {
          return memory;
        }
      } else if dump.Keys - memory.Keys == {} && onlyOnNewItems {
        assert forall id :: id in dump.Keys ==> id !in dump.Keys - memory.Keys;
        return memory;
      }
      r := dump;
    }
  }

  // ---------------------------------------------------------------- runs

  datatype Event<V> =
    | Get(id: string, pop: bool, now: real)
    | Add(id: string, value: V, timeout: Option<int>, deadline: Option<real>, now: real)
    | Cleanup(now: real)

  datatype Answer<V> = Value(value: Option<V>) | Added(added: bool)

  function After<V>(s: Settings, items: Items<V>, e: Event<V>): Items<V> {
    match e
    case Get(id, pop, now) => AfterGet(items, id, pop, now)
    case Add(id, value, timeout, deadline, now) => AfterAdd(s, items, id, value, timeout, deadline, now)
    case Cleanup(now) => Cleaned(items, now)
  }

  function Answers<V>(s: Settings, items: Items<V>, events: seq<Event<V>>): seq<Answer<V>>
    decreases |events|
  {
    if events == [] then []
    else
      var e := events[0];
      var later := Answers(s, After(s, items, e), events[1..]);
      match e
      case Get(id, _, now) => [Value(Got(items, id, now))] + later
      case Add(id, _, _, _, _) => [Added(id !in items)] + later
      case Cleanup(_) => later
  }

  /** The clock does not run backwards. */
  predicate Clocked<V>(events: seq<Event<V>>, start: real) {
    events == [] || (events[0].now >= start && Clocked(events[1..], events[0].now))
  }

  function Uncleaned<V>(events: seq<Event<V>>): seq<Event<V>> {
    if events == [] then []
    else if events[0].Cleanup? then Uncleaned(events[1..])
    else [events[0]] + Uncleaned(events[1..])
  }

  /** No add meets an expired entry of its id that is still there. */
  predicate NoStaleAdds<V>(s: Settings, items: Items<V>, events: seq<Event<V>>)
    decreases |events|
  {
    events == [] || (
      (events[0].Add? ==> !Expired(items, events[0].id, events[0].now))
      && NoStaleAdds(s, After(s, items, events[0]), events[1..]))
  }

  /** The same live entries. */
  ghost predicate SameLive<V(!new)>(a: Items<V>, b: Items<V>, now: real) {
    forall id :: (Live(a, id, now) <==> Live(b, id, now)) && (Live(a, id, now) ==> a[id] == b[id])
  }

  lemma GetKeepsSameLive<V(!new)>(a: Items<V>, b: Items<V>, id: string, pop: bool, now: real)
    requires SameLive(a, b, now)
    ensures Got(a, id, now) == Got(b, id, now)
    ensures SameLive(AfterGet(a, id, pop, now), AfterGet(b, id, pop, now), now)
  {
    var a', b' := AfterGet(a, id, pop, now), AfterGet(b, id, pop, now);
    forall k ensures (Live(a', k, now) <==> Live(b', k, now)) && (Live(a', k, now) ==> a'[k] == b'[k]) {
      assert Live(a, k, now) <==> Live(b, k, now);
    }
  }

  lemma CleanupKeepsSameLive<V(!new)>(a: Items<V>, b: Items<V>, now: real)
    requires SameLive(a, b, now)
    ensures SameLive(Cleaned(a, now), b, now)
  {
    forall k ensures (Live(Cleaned(a, now), k, now) <==> Live(b, k, now)) && (Live(b, k, now) ==> Cleaned(a, now)[k] == b[k]) {
      assert Live(a, k, now) <==> Live(b, k, now);
    }
  }

  lemma AddKeepsSameLive<V(!new)>(s: Settings, a: Items<V>, b: Items<V>, e: Event<V>)
    requires e.Add? && SameLive(a, b, e.now) && a.Keys <= b.Keys && !Expired(b, e.id, e.now)
    ensures e.id in a <==> e.id in b
    ensures SameLive(After(s, a, e), After(s, b, e), e.now)
  {
    assert Live(a, e.id, e.now) <==> Live(b, e.id, e.now);
    var a', b' := After(s, a, e), After(s, b, e);
    forall k ensures (Live(a', k, e.now) <==> Live(b', k, e.now)) && (Live(a', k, e.now) ==> a'[k] == b'[k]) {
      assert Live(a, k, e.now) <==> Live(b, k, e.now);
    }
  }

  /** Over every run with a clock, leaving out all cleanups changes no answer,
      as long as no add meets an expired entry that nobody cleaned up. */
  lemma {:induction false} CleanupsAreInvisible<V(!new)>(s: Settings, a: Items<V>, b: Items<V>, events: seq<Event<V>>, start: real)
    requires SameLive(a, b, start) && a.Keys <= b.Keys && Clocked(events, start)
    requires NoStaleAdds(s, b, Uncleaned(events))
    ensures Answers(s, a, events) == Answers(s, b, Uncleaned(events))
    decreases |events|
  {
    if events != [] {
      var e := events[0];
      LaterSameLive(a, b, start, e.now);
      if e.Cleanup? {
        CleanupKeepsSameLive(a, b, e.now);
        CleanupsAreInvisible(s, After(s, a, e), b, events[1..], e.now);
      } else {
        assert Uncleaned(events)[1..] == Uncleaned(events[1..]);
        if e.Get? {
          GetKeepsSameLive(a, b, e.id, e.pop, e.now);
        } else {
          AddKeepsSameLive(s, a, b, e);
        }
        CleanupsAreInvisible(s, After(s, a, e), After(s, b, e), events[1..], e.now);
      }
    }
  }

  /** A cleanup right before an add shows exactly if the add would have met an
      expired entry: then it succeeds instead of failing. */
  lemma StaleAddsShowCleanups<V(!new)>(s: Settings, items: Items<V>, e: Event<V>)
    requires e.Add?
    ensures Answers(s, items, [Cleanup(e.now), e]) == Answers(s, items, [e]) <==> !Expired(items, e.id, e.now)
  {
    var cleaned := After(s, items, Cleanup(e.now));
    assert [Cleanup(e.now), e][1..] == [e] && [e][1..] == [];
    assert Answers(s, cleaned, [e]) == [Added(e.id !in cleaned)];
    assert Answers(s, items, [e]) == [Added(e.id !in items)];
  }

  // ---------------------------------------------------------------- accesses

  /** The entries after a run. */
  function Reached<V>(s: Settings, items: Items<V>, events: seq<Event<V>>): Items<V>
    decreases |events|
  {
    if events == [] then items else After(s, Reached(s, items, events[..|events| - 1]), events[|events| - 1])
  }

  /** What the accesses of a run make of an entry: none came after its deadline,
      as earlier ones moved it, and none popped it. */
  function Moved<V>(item: Item<V>, events: seq<Event<V>>, id: string): Option<Item<V>>
    decreases |events|
  {
    if events == [] then Some(item)
    else
      var e := events[|events| - 1];
      match Moved(item, events[..|events| - 1], id)
      case None => None
      case Some(moved) =>
        if !(e.Get? && e.id == id) then Some(moved)
        else if e.now <= moved.deadline && !e.pop then Some(Touched(moved, e.now))
        else None
  }

  /** The entry came to be at this point of the run: it was there from the
      start, or the event before is an add that succeeded. */
  predicate Born<V(==)>(s: Settings, items: Items<V>, events: seq<Event<V>>, id: string, b: nat, item: Item<V>)
    requires b <= |events|
  {
    if b == 0 then id in items && item == items[id]
    else
      var e := events[b - 1];
      e.Add? && e.id == id && id !in Reached(s, items, events[..b - 1]) && item == NewItem(s, e.value, e.timeout, e.deadline, e.now)
  }

  /** The run is in order of its clock, which shows no later time than now. */
  predicate InOrder<V>(events: seq<Event<V>>, now: real)
    decreases |events|
  {
    events == [] || (events[|events| - 1].now <= now && InOrder(events[..|events| - 1], events[|events| - 1].now))
  }

  /** One event later, an earlier birth is the same. */
  lemma BornBefore<V(!new)>(s: Settings, items: Items<V>, events: seq<Event<V>>, id: string, b: nat, item: Item<V>)
    requires b < |events|
    ensures var n := |events| - 1;
      && (Born(s, items, events[..n], id, b, item) <==> Born(s, items, events, id, b, item))
      && events[b..] == events[..n][b..] + [events[n]] && events[b..][..|events[b..]| - 1] == events[..n][b..]
  {
    var before := events[..|events| - 1];
    assert b > 0 ==> before[..b - 1] == events[..b - 1];
  }

  /** An entry that an event keeps was accessed in time, if at all. */
  lemma KeptEntries<V(!new)>(s: Settings, items: Items<V>, e: Event<V>, id: string)
    requires id in items && id in After(s, items, e)
    ensures e.Get? && e.id == id ==> e.now <= items[id].deadline && !e.pop && After(s, items, e)[id] == Touched(items[id], e.now)
    ensures !(e.Get? && e.id == id) ==> After(s, items, e)[id] == items[id]
  {
  }

  /** An entry in the cache was born, and every access since was in time. */
  lemma {:induction false} EntriesWereBorn<V(!new)>(s: Settings, items: Items<V>, events: seq<Event<V>>, id: string) returns (b: nat, item: Item<V>)
    requires id in Reached(s, items, events)
    ensures b <= |events| && Born(s, items, events, id, b, item)
    ensures Moved(item, events[b..], id) == Some(Reached(s, items, events)[id])
    decreases |events|
  {
    if events == [] {
      b, item := 0, items[id];
    } else {
      var n, before, e := |events| - 1, events[..|events| - 1], events[|events| - 1];
      var was := Reached(s, items, before);
      if id !in was {
        b, item := |events|, NewItem(s, e.value, e.timeout, e.deadline, e.now);
        assert events[b..] == [];
      } else {
        b, item := EntriesWereBorn(s, items, before, id);
        BornBefore(s, items, events, id, b, item);
        KeptEntries(s, was, e, id);
      }
    }
  }

  /** An entry that was born and is still in time at the end is in the cache:
      no cleanup and no failed access has dropped it. */
  lemma {:induction false} LiveEntriesStay<V(!new)>(s: Settings, items: Items<V>, events: seq<Event<V>>, id: string, b: nat, item: Item<V>, now: real)
    requires b <= |events| && Born(s, items, events, id, b, item) && InOrder(events, now)
    requires Moved(item, events[b..], id).Some? && Moved(item, events[b..], id).value.deadline >= now
    ensures id in Reached(s, items, events) && Reached(s, items, events)[id] == Moved(item, events[b..], id).value
    decreases |events|
  {
    if b == |events| {
      assert events[b..] == [];
    } else {
      var n, before, e := |events| - 1, events[..|events| - 1], events[|events| - 1];
      BornBefore(s, items, events, id, b, item);
      LiveEntriesStay(s, items, before, id, b, item, e.now);
    }
  }

  /** Whatever else happens in a run, a get hits exactly if the entry was born
      at some point and neither this access nor one since came too late or popped it. */
  lemma HitsAreInTime<V(!new)>(s: Settings, items: Items<V>, events: seq<Event<V>>, id: string, now: real, value: V)
    requires InOrder(events, now)
    ensures Got(Reached(s, items, events), id, now) == Some(value) <==>
      exists b: nat, item :: b <= |events| && Born(s, items, events, id, b, item) && item.value == value
        && Moved(item, events[b..], id).Some? && now <= Moved(item, events[b..], id).value.deadline
  {
    var found := Reached(s, items, events);
    if Live(found, id, now) {
      var b, item := EntriesWereBorn(s, items, events, id);
      MovedKeepsValue(item, events[b..], id);
    }
    forall b: nat, item | b <= |events| && Born(s, items, events, id, b, item)
        && Moved(item, events[b..], id).Some? && now <= Moved(item, events[b..], id).value.deadline
      ensures Got(found, id, now) == Some(item.value)
    {
      LiveEntriesStay(s, items, events, id, b, item, now);
      MovedKeepsValue(item, events[b..], id);
    }
  }

  lemma {:induction false} MovedKeepsValue<V(!new)>(item: Item<V>, events: seq<Event<V>>, id: string)
    requires Moved(item, events, id).Some?
    ensures Moved(item, events, id).value.value == item.value
    decreases |events|
  {
    if events != [] { MovedKeepsValue(item, events[..|events| - 1], id); }
  }

  /** The event at j is a get of this id. */
  predicate AccessAt<V>(events: seq<Event<V>>, id: string, j: int) {
    0 <= j < |events| && events[j].Get? && events[j].id == id
  }

  predicate LastAccess<V>(events: seq<Event<V>>, id: string, k: int, before: int) {
    AccessAt(events, id, k) && k < before && forall j :: k < j < before ==> !AccessAt(events, id, j)
  }

  /** The access at j came within the timeout after the last one before it, or,
      if there is none or accesses do not move the deadline, by the deadline. */
  ghost predicate OnTime<V>(item: Item<V>, events: seq<Event<V>>, id: string, j: int)
    requires 0 <= j < |events|
  {
    && (item.timeout == 0 || (forall k :: 0 <= k < j ==> !AccessAt(events, id, k)) ==> events[j].now <= item.deadline)
    && (item.timeout != 0 ==> forall k :: LastAccess(events, id, k, j) ==> events[j].now <= events[k].now + item.timeout as real)
  }

  /** The deadline that accesses leave behind. */
  ghost predicate EndsAt<V>(item: Item<V>, events: seq<Event<V>>, id: string, deadline: real) {
    && (item.timeout == 0 || (forall k :: 0 <= k < |events| ==> !AccessAt(events, id, k)) ==> deadline == item.deadline)
    && (item.timeout != 0 ==> forall k :: LastAccess(events, id, k, |events|) ==> deadline == events[k].now + item.timeout as real)
  }

  lemma {:induction false} LastAccessExists<V(!new)>(events: seq<Event<V>>, id: string, before: nat)
    requires before <= |events| && exists k :: 0 <= k < before && AccessAt(events, id, k)
    ensures exists k :: LastAccess(events, id, k, before)
    decreases before
  {
    if AccessAt(events, id, before - 1) {
      assert LastAccess(events, id, before - 1, before);
    } else {
      LastAccessExists(events, id, before - 1);
      var k :| LastAccess(events, id, k, before - 1);
      assert LastAccess(events, id, k, before);
    }
  }

  lemma PrefixAccesses<V(!new)>(events: seq<Event<V>>, id: string, n: nat)
    requires n <= |events|
    ensures forall j :: j < n ==> (AccessAt(events[..n], id, j) <==> AccessAt(events, id, j))
    ensures forall k, m :: m <= n ==> (LastAccess(events[..n], id, k, m) <==> LastAccess(events, id, k, m))
  {
  }

  /** Every access was in time and none popped. */
  ghost predicate AllOnTime<V>(item: Item<V>, events: seq<Event<V>>, id: string) {
    forall j :: AccessAt(events, id, j) ==> !events[j].pop && OnTime(item, events, id, j)
  }

  lemma AllOnTimeStep<V(!new)>(item: Item<V>, events: seq<Event<V>>, id: string)
    requires events != []
    ensures var n := |events| - 1;
      AllOnTime(item, events, id) <==>
        AllOnTime(item, events[..n], id) && (AccessAt(events, id, n) ==> !events[n].pop && OnTime(item, events, id, n))
  {
    var n := |events| - 1;
    PrefixAccesses(events, id, n);
    forall j | 0 <= j < n ensures OnTime(item, events[..n], id, j) <==> OnTime(item, events, id, j) {}
  }

  /** Where the deadline ends is how late the next access may come. */
  lemma NextIsOnTime<V(!new)>(item: Item<V>, events: seq<Event<V>>, id: string, deadline: real)
    requires events != [] && EndsAt(item, events[..|events| - 1], id, deadline)
    ensures OnTime(item, events, id, |events| - 1) <==> events[|events| - 1].now <= deadline
  {
    var n := |events| - 1;
    PrefixAccesses(events, id, n);
    if exists k :: 0 <= k < n && AccessAt(events, id, k) { LastAccessExists(events, id, n); }
  }

  /** An access counts the deadline anew, any other event leaves it. */
  lemma EndsAtStep<V(!new)>(item: Item<V>, events: seq<Event<V>>, id: string, deadline: real)
    requires events != [] && EndsAt(item, events[..|events| - 1], id, deadline)
    ensures var n := |events| - 1;
      EndsAt(item, events, id, if AccessAt(events, id, n) && item.timeout != 0 then events[n].now + item.timeout as real else deadline)
  {
    var n := |events| - 1;
    PrefixAccesses(events, id, n);
    if AccessAt(events, id, n) {
      assert LastAccess(events, id, n, |events|);
    } else {
      forall k ensures LastAccess(events, id, k, |events|) <==> LastAccess(events, id, k, n) {}
      assert forall k :: 0 <= k < n ==> (AccessAt(events[..n], id, k) <==> AccessAt(events, id, k));
    }
  }

  /** An entry outlives a run exactly if every access to it was in time and none
      popped it, and its deadline is then counted from the last access. */
  lemma {:induction false} MovedInWords<V(!new)>(item: Item<V>, events: seq<Event<V>>, id: string)
    ensures Moved(item, events, id).Some? <==> AllOnTime(item, events, id)
    ensures Moved(item, events, id).Some? ==>
      Moved(item, events, id).value.timeout == item.timeout && EndsAt(item, events, id, Moved(item, events, id).value.deadline)
    decreases |events|
  {
    if events != [] {
      var before := events[..|events| - 1];
      MovedInWords(item, before, id);
      AllOnTimeStep(item, events, id);
      if Moved(item, before, id).Some? {
        NextIsOnTime(item, events, id, Moved(item, before, id).value.deadline);
        EndsAtStep(item, events, id, Moved(item, before, id).value.deadline);
      }
    }
  }

  // ---------------------------------------------------------------- memory

  /** A flush to memory and a load into an empty cache with the same settings
      give the same entries back, exactly if no deadline is the number that
      add takes for a missing one (or the replacement is that same number). */
  lemma FlushThenLoad<V(!new)>(s: Settings, items: Items<V>, memory: Items<V>, now: real)
    requires Kept(s, items)
    ensures Loaded(s, map[], Dumped(items, memory, false), now) == items <==>
      forall id :: id in items && items[id].deadline == 0.0 ==> now + items[id].timeout as real == 0.0
  {
    var loaded := Loaded(s, map[], items, now);
    assert loaded.Keys == items.Keys;
    forall id | id in items
      ensures loaded[id] == items[id] <==> (items[id].deadline == 0.0 ==> now + items[id].timeout as real == 0.0)
    {
    }
  }

  /** The clock shows a time after its epoch, and no timeout is negative. */
  predicate Usual<V>(e: Event<V>) {
    e.now > 0.0 && (e.Add? && e.timeout.Some? ==> e.timeout.value >= 0)
  }

  predicate AllDated<V>(items: Items<V>) {
    forall id :: id in items ==> items[id].deadline != 0.0 && items[id].timeout >= 0
  }

  lemma {:induction false} RunsKeepDates<V(!new)>(s: Settings, items: Items<V>, events: seq<Event<V>>)
    requires Kept(s, items) && AllDated(items) && s.defaultTimeout >= 0 && forall e :: e in events ==> Usual(e)
    ensures Kept(s, Reached(s, items, events)) && AllDated(Reached(s, items, events))
    decreases |events|
  {
    if events != [] {
      RunsKeepDates(s, items, events[..|events| - 1]);
      assert Usual(events[|events| - 1]);
    }
  }

  /** A start of the bot: the entries of memory are loaded, then a run follows. */
  datatype Session<V> = Session(start: real, events: seq<Event<V>>)

  /** The cache after some sessions, each of which ended with a flush. */
  function AfterSessions<V>(s: Settings, sessions: seq<Session<V>>): Items<V>
    decreases |sessions|
  {
    if sessions == [] then map[]
    else
      var last := sessions[|sessions| - 1];
      Reached(s, Loaded(s, map[], AfterSessions(s, sessions[..|sessions| - 1]), last.start), last.events)
  }

  ghost predicate UsualSession<V(!new)>(session: Session<V>) {
    session.start > 0.0 && forall e :: e in session.events ==> Usual(e)
  }

  lemma {:induction false} SessionsKeepDates<V(!new)>(s: Settings, sessions: seq<Session<V>>)
    requires s.defaultTimeout >= 0 && forall session :: session in sessions ==> UsualSession(session)
    ensures Kept(s, AfterSessions(s, sessions)) && AllDated(AfterSessions(s, sessions))
    decreases |sessions|
  {
    if sessions != [] {
      var last, before := sessions[|sessions| - 1], AfterSessions(s, sessions[..|sessions| - 1]);
      SessionsKeepDates(s, sessions[..|sessions| - 1]);
      assert UsualSession(last);
      RunsKeepDates(s, Loaded(s, map[], before, last.start), last.events);
    }
  }

  /** With a clock after its epoch and no negative timeouts, a restart gives
      back every cache that can come about. */
  lemma RestartsKeepEntries<V(!new)>(s: Settings, sessions: seq<Session<V>>, memory: Items<V>, now: real)
    requires s.defaultTimeout >= 0 && forall session :: session in sessions ==> UsualSession(session)
    ensures Loaded(s, map[], Dumped(AfterSessions(s, sessions), memory, false), now) == AfterSessions(s, sessions)
  {
    SessionsKeepDates(s, sessions);
    FlushThenLoad(s, AfterSessions(s, sessions), memory, now);
  }

  lemma LaterSameLive<V(!new)>(a: Items<V>, b: Items<V>, start: real, now: real)
    requires SameLive(a, b, start) && now >= start
    ensures SameLive(a, b, now)
  {
    forall k ensures (Live(a, k, now) <==> Live(b, k, now)) && (Live(a, k, now) ==> a[k] == b[k]) {
      assert Live(a, k, start) <==> Live(b, k, start);
    }
  }
}
