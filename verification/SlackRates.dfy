/**
 The rate limits of the Slack client: slots that are reserved for calls of an
 api method, and the pause between two messages to a channel. Times are real
 numbers, in seconds.
 */
module SlackRates {
  import opened Wrappers

  type Times = map<string, real>

  function Max(a: real, b: real): real {
    if a < b then b else a
  }

  // ---------------------------------------------------------------- one call and one refusal

  /** The slot of a call: the limit after the last one, and not before the delay is over. */
  function Slot(limit: real, last: real, now: real, delay: real): real {
    Max(last + limit, now + delay)
  }

  /** The seconds that a Retry-After header asks for; None where it is no number. */
  function Demanded(header: Option<int>): real {
    if header.None? then 30.0 else header.value as real
  }

  /** What the next slots are counted from, after a refusal. */
  function Postponed(last: real, now: real, demanded: real): real {
    Max(last, now) + demanded
  }

  /** What happens to the client between two awaits: a call starts, or the
      answer to one was a refusal and the call is repeated at once. */
  datatype Event =
    | Call(name: string, now: real, delay: real)
    | Refused(name: string, now: real, again: real, header: Option<int>)

  /** A reserved slot, the time of the reservation and the delay asked for. */
  datatype Reservation = Reservation(name: string, slot: real, now: real, delay: real)

  datatype Client = Client(limits: Times, history: Times) {
    predicate Valid() {
      limits.Keys <= history.Keys
    }

    function Reserve(name: string, now: real, delay: real): (Client, seq<Reservation>)
      requires Valid()
    {
      if name !in limits then (this, [])
      else
        var slot := Slot(limits[name], history[name], now, delay);
        (this.(history := history[name := slot]), [Reservation(name, slot, now, delay)])
    }

    function Postpone(name: string, now: real, demanded: real): Client
      requires Valid()
    {
      if name !in limits then this
      else this.(history := history[name := Postponed(history[name], now, demanded)])
    }

    function Step(e: Event): (r: (Client, seq<Reservation>))
      requires Valid()
      ensures r.0.Valid() && r.0.limits == limits
    {
      match e
      case Call(name, now, delay) => Reserve(name, now, delay)
      case Refused(name, now, again, header) =>
        Postpone(name, now, Demanded(header)).Reserve(name, again, Demanded(header))
    }

    /** The client and the reservations after a run of events. */
    function Run(events: seq<Event>): (r: (Client, seq<Reservation>))
      requires Valid()
      ensures r.0.Valid() && r.0.limits == limits
    {
      if events == [] then (this, [])
      else
        var (client, reserved) := Run(events[..|events| - 1]);
        var (next, more) := client.Step(events[|events| - 1]);
        (next, reserved + more)
    }
  }

  // ---------------------------------------------------------------- all runs

  /** The reservations for one api method. */
  function For(name: string, reserved: seq<Reservation>): (r: seq<Reservation>)
    ensures forall x :: x in r <==> x in reserved && x.name == name
  {
    if reserved == [] then []
    else For(name, reserved[..|reserved| - 1]) + if reserved[|reserved| - 1].name == name then [reserved[|reserved| - 1]] else []
  }

  lemma {:induction false} ForConcat(name: string, a: seq<Reservation>, b: seq<Reservation>)
    ensures For(name, a + b) == For(name, a) + For(name, b)
  {
    if b == [] {
      assert a + b == a;
    } else {
      var init, last := b[..|b| - 1], b[|b| - 1];
      var tail := if last.name == name then [last] else [];
      ForConcat(name, a, init);
      assert (a + b)[..|a + b| - 1] == a + init && (a + b)[|a + b| - 1] == last;
      assert (For(name, a) + For(name, init)) + tail == For(name, a) + (For(name, init) + tail);
    }
  }

  /** A refusal demands no negative time. */
  predicate Demanding(e: Event) {
    e.Refused? ==> Demanded(e.header) >= 0.0
  }

  /** A number of limits after one another. */
  function Limits(n: nat, limit: real): (r: real)
    ensures r == n as real * limit
  {
    if n == 0 then 0.0
    else
      assert n as real * limit == (n - 1) as real * limit + limit by { assert n as real == (n - 1) as real + 1.0; }
      Limits(n - 1, limit) + limit
  }

  /** Any number of slots take at least that many limits. */
  predicate Spaced(slots: seq<Reservation>, limit: real) {
    forall i, j :: 0 <= i < j < |slots| ==> slots[j].slot >= slots[i].slot + Limits(j - i, limit)
  }

  /** The history is not behind the last slot. */
  predicate UpToDate(c: Client, name: string, slots: seq<Reservation>)
    requires name in c.history
  {
    slots != [] ==> c.history[name] >= slots[|slots| - 1].slot
  }

  lemma SpacedMore(slots: seq<Reservation>, limit: real, r: Reservation)
    requires Spaced(slots, limit)
    requires slots != [] ==> r.slot >= slots[|slots| - 1].slot + limit
    ensures Spaced(slots + [r], limit)
  {
    var all := slots + [r];
    forall i, j | 0 <= i < j < |all| ensures all[j].slot >= all[i].slot + Limits(j - i, limit) {
      if j == |slots| && i < j - 1 {
        assert slots[j - 1].slot >= slots[i].slot + Limits(j - 1 - i, limit);
      }
    }
  }

  lemma StepKeepsSpaced(c: Client, e: Event, name: string, slots: seq<Reservation>)
    requires c.Valid() && name in c.limits && Demanding(e)
    requires Spaced(slots, c.limits[name]) && UpToDate(c, name, slots)
    ensures var (next, more) := c.Step(e);
      Spaced(slots + For(name, more), c.limits[name]) && UpToDate(next, name, slots + For(name, more))
  {
    if e.name == name {
      StepReserves(c, e);
      var r := c.Step(e).1[0];
      ForOne(name, r);
      SpacedMore(slots, c.limits[name], r);
    } else {
      MethodsAreIndependent(c, e, name);
      assert For(name, c.Step(e).1) == [];
      assert slots + [] == slots;
    }
  }

  lemma ForOne(name: string, r: Reservation)
    ensures For(name, [r]) == if r.name == name then [r] else []
  {
    assert [r][..0] == [];
  }

  /** One event of a rate-limited method reserves one slot, a limit after the history. */
  lemma StepReserves(c: Client, e: Event)
    requires c.Valid() && e.name in c.limits && Demanding(e)
    ensures var (next, more) := c.Step(e);
      |more| == 1 && more == [more[0]] && more[0].name == e.name
      && more[0].slot >= c.history[e.name] + c.limits[e.name] && next.history[e.name] == more[0].slot
  {
  }

  /** In every interleaving of calls and refusals, the slots of a rate-limited
      method are at least its limit apart; clocks need not even be monotone. */
  lemma {:induction false} SlotsAreSpaced(c: Client, events: seq<Event>, name: string)
    requires c.Valid() && name in c.limits && forall e :: e in events ==> Demanding(e)
    ensures var (client, reserved) := c.Run(events);
      Spaced(For(name, reserved), c.limits[name]) && UpToDate(client, name, For(name, reserved))
    decreases |events|
  {
    if events != [] {
      var before, e := events[..|events| - 1], events[|events| - 1];
      SlotsAreSpaced(c, before, name);
      var (client, reserved) := c.Run(before);
      StepKeepsSpaced(client, e, name, For(name, reserved));
      ForConcat(name, reserved, client.Step(e).1);
    }
  }

  /** No slot lies before the time of its reservation plus its delay. */
  lemma {:induction false} SlotsAreNotPast(c: Client, events: seq<Event>)
    requires c.Valid()
    ensures forall r :: r in c.Run(events).1 ==> r.slot >= r.now + r.delay
    decreases |events|
  {
    if events != [] {
      SlotsAreNotPast(c, events[..|events| - 1]);
    }
  }

  lemma HistoryDoesNotFall(c: Client, e: Event, name: string, bound: real)
    requires c.Valid() && name in c.limits && c.limits[name] >= 0.0 && Demanding(e) && c.history[name] >= bound
    ensures c.Step(e).0.history[name] >= bound && forall r :: r in c.Step(e).1 && r.name == name ==> r.slot >= bound
  {
    if e.name == name { StepReserves(c, e); } else { MethodsAreIndependent(c, e, name); }
  }

  /** After a refusal every later slot of the method, of whatever call, is the
      demanded time and the limit away. */
  lemma {:induction false} RefusalsAreHonoured(c: Client, refusal: Event, events: seq<Event>)
    requires c.Valid() && refusal.Refused? && refusal.name in c.limits && c.limits[refusal.name] >= 0.0
    requires Demanding(refusal) && forall e :: e in events ==> Demanding(e)
    ensures var (client, reserved) := c.Run([refusal] + events);
      var earliest := refusal.now + Demanded(refusal.header) + c.limits[refusal.name];
      (forall r :: r in reserved && r.name == refusal.name ==> r.slot >= earliest) && client.history[refusal.name] >= earliest
    decreases |events|
  {
    var all := [refusal] + events;
    if events == [] {
      assert all[..|all| - 1] == [];
    } else {
      var before := events[..|events| - 1];
      RefusalsAreHonoured(c, refusal, before);
      assert all[..|all| - 1] == [refusal] + before;
      assert all[|all| - 1] == events[|events| - 1];
      HistoryDoesNotFall(c.Run([refusal] + before).0, events[|events| - 1], refusal.name,
                         refusal.now + Demanded(refusal.header) + c.limits[refusal.name]);
    }
  }

  /** A call of another method changes nothing for this one. */
  lemma MethodsAreIndependent(c: Client, e: Event, name: string)
    requires c.Valid() && e.name != name && name in c.history
    ensures c.Step(e).0.history[name] == c.history[name] && forall r :: r in c.Step(e).1 ==> r.name != name
  {
  }

  /** The repeated call after a refusal never gets in the way of an earlier
      slot, exactly if the header does not ask for a negative time: then
      limits exist for which it does, and the slot is past. */
  lemma NegativeDemandsBreakSpacing(header: Option<int>)
    ensures (forall limit: real, last: real, now: real, again: real :: limit >= 0.0 && again >= now ==>
      Slot(limit, Postponed(last, now, Demanded(header)), again, Demanded(header)) >= Max(last + limit, again))
      <==> Demanded(header) >= 0.0
  {
    var d := Demanded(header);
    if d < 0.0 {
      assert Slot(0.0, Postponed(0.0, 0.0, d), 0.0, d) < Max(0.0 + 0.0, 0.0);
    }
  }

  // ---------------------------------------------------------------- the object

  class SlackClient {
    const limits: Times
    var history: Times

    ghost predicate Valid()
      reads this
    {
      Abstract().Valid()
    }

    ghost function Abstract(): Client
      reads this
    {
      Client(limits, history)
    }

    constructor (limits: Times)
      ensures Valid() && this.limits == limits && forall name :: name in limits ==> history[name] == 0.0
    {
      this.limits := limits;
      this.history := map name | name in limits :: 0.0;
    }

    /** The start of api_call; the result is how long it sleeps. */
    method Start(name: string, now: real, delay: real) returns (sleep: real)
      requires Valid()
      modifies this`history
      ensures Valid() && Abstract() == old(Abstract()).Reserve(name, now, delay).0
      ensures name in limits ==> now + sleep == old(Abstract()).Reserve(name, now, delay).1[0].slot
      ensures name in limits ==>
        && sleep >= delay && now + sleep >= old(history)[name] + limits[name]
        && (sleep == delay || now + sleep == old(history)[name] + limits[name])
        && history == old(history)[name := now + sleep]
      ensures name !in limits ==> sleep == delay && history == old(history)
    {
      sleep := delay;
      if name in limits {
        var lastCall := history[name];
        var backOff := limits[name] - (now - lastCall);
        sleep := Max(backOff, sleep);
        history := history[name := now + sleep];
      }
    }

    /** The handling of a refusal, up to the sleep of the repeated call. */
    method Refuse(name: string, now: real, again: real, header: Option<int>) returns (sleep: real)
      requires Valid()
      modifies this`history
      ensures Valid() && Abstract() == old(Abstract()).Step(Refused(name, now, again, header)).0
      ensures name in limits ==> again + sleep == old(Abstract()).Step(Refused(name, now, again, header)).1[0].slot
      ensures var demanded := if header.Some? then header.value as real else 30.0;
        if name !in limits then sleep == demanded && history == old(history)
        else
          && history == old(history)[name := again + sleep] && sleep >= demanded
          && (again + sleep >= old(history)[name] + demanded + limits[name] && again + sleep >= now + demanded + limits[name])
          && (sleep == demanded || again + sleep == old(history)[name] + demanded + limits[name] || again + sleep == now + demanded + limits[name])
    {
      var delay := if header.None? then 30.0 else header.value as real;
      if name in limits {
        history := history[name := Max(history[name], now) + delay];
      }
      sleep := Start(name, again, delay);
    }
  }

  // ---------------------------------------------------------------- the pause of a channel

  /** One message: the time it was taken from the queue, the time at which a
      sleep would end, and the time at which sending ended. */
  datatype Sending = Sending(asked: real, woken: real, ended: real)

  /** When a message is sent, with the time before which it must not be. */
  function SentAt(next: real, s: Sending): real {
    if next > s.asked then s.woken else s.asked
  }

  /** A sleep takes as long as it was asked to, and time does not run backwards. */
  predicate Possible(next: real, s: Sending) {
    s.woken >= Max(s.asked, next) && s.ended >= SentAt(next, s)
  }

  class ChannelQueue {
    var nextMessage: real

    /** _send, with the clock readings as parameters. */
    method Send(s: Sending) returns (start: real)
      requires Possible(nextMessage, s)
      modifies this
      ensures start == SentAt(old(nextMessage), s) && start >= old(nextMessage)
      ensures start == if old(nextMessage) > s.asked then s.woken else s.asked
      ensures nextMessage == s.ended + 1.0
    {
      start := s.asked;
      if nextMessage > s.asked {
        start := s.woken;
      }
      nextMessage := s.ended + 1.0;
    }
  }
}
